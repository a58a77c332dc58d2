/** Properties of the `setPrivilege` plan: which names each scope receives, how
    often each scope is called, in what order, with which verb, and what the single
    audit event records. */
module PrivilegePlan {
  import opened Wrappers
  import opened Seqs
  import opened EcmaParseInt
  import opened Effects
  import opened CategoriesApi

  // ---------------------------------------------------------------------------
  // Reading back the pieces of a plan

  /** The registry calls of a request carry, per scope, the request filtered by that
      scope's valid list when the request is routed there, and nothing otherwise. */
  lemma {:induction false} ScopeAppliesNames(cid: string, verb: Verb, privs: seq<string>, member: string,
                                             lists: ValidLists, scope: Scope)
    ensures AppliedNames(ScopeApplies(cid, verb, privs, member, lists), scope)
         == if Routed(cid, scope) then Filter(privs, ValidFor(lists, scope)) else []
  {
    if IsDualScope(cid) {
      DualNames(verb, Filter(privs, lists.admin), Filter(privs, lists.global), member, scope);
    } else {
      var t := [Apply(CategoryScope(cid), verb, Filter(privs, lists.category), member)];
      assert t[1..] == [];
    }
  }

  /** Names per scope on the admin/global branch. */
  lemma DualNames(verb: Verb, adminNames: seq<string>, globalNames: seq<string>, member: string, scope: Scope)
    ensures AppliedNames(ApplyIfAny(AdminScope, verb, adminNames, member)
                         + ApplyIfAny(GlobalScope, verb, globalNames, member), scope)
         == if scope == AdminScope then adminNames else if scope == GlobalScope then globalNames else []
  {
    var a := ApplyIfAny(AdminScope, verb, adminNames, member);
    var g := ApplyIfAny(GlobalScope, verb, globalNames, member);
    AppliedNamesAppend(a, g, scope);
  }

  /** Registry calls per scope on the admin/global branch. */
  lemma DualCount(verb: Verb, privs: seq<string>, member: string, lists: ValidLists, scope: Scope)
    ensures ApplyCount(ApplyIfAny(AdminScope, verb, Filter(privs, lists.admin), member)
                       + ApplyIfAny(GlobalScope, verb, Filter(privs, lists.global), member), scope)
         == (if scope == AdminScope && |Filter(privs, lists.admin)| > 0 then 1 else 0)
            + (if scope == GlobalScope && |Filter(privs, lists.global)| > 0 then 1 else 0)
  {
    var a := ApplyIfAny(AdminScope, verb, Filter(privs, lists.admin), member);
    var g := ApplyIfAny(GlobalScope, verb, Filter(privs, lists.global), member);
    ApplyCountAppend(a, g, scope);
  }

  /** Registry calls per scope on the category branch: exactly one, on the category. */
  lemma CategoryCount(cid: string, verb: Verb, names: seq<string>, member: string, scope: Scope)
    ensures ApplyCount([Apply(CategoryScope(cid), verb, names, member)], scope)
         == if scope == CategoryScope(cid) then 1 else 0
  {
    assert [Apply(CategoryScope(cid), verb, names, member)][1..] == [];
  }

  lemma {:induction false} ScopeAppliesCount(cid: string, verb: Verb, privs: seq<string>, member: string,
                                             lists: ValidLists, scope: Scope)
    ensures ApplyCount(ScopeApplies(cid, verb, privs, member, lists), scope)
         == if !Routed(cid, scope) then 0
            else if scope.CategoryScope? then 1
            else if |Filter(privs, ValidFor(lists, scope))| > 0 then 1
            else 0
  {
    if IsDualScope(cid) {
      DualCount(verb, privs, member, lists, scope);
    } else {
      CategoryCount(cid, verb, Filter(privs, lists.category), member, scope);
    }
  }

  /** A successful plan is its registry calls followed by the audit event. */
  lemma PlanShape(caller: Caller, req: PrivilegeRequest, existence: Existence, lists: ValidLists)
    requires existence.isUser || existence.isGroup
    requires req.privilege != NameList([])
    ensures SetPrivilege(caller, req, existence, lists).value
         == ScopeApplies(req.cid, VerbFor(req.grant), Normalize(req.privilege), req.member, lists)
            + [Log(PrivilegeChangeEvent(caller, req))]
  {
  }

  // ---------------------------------------------------------------------------
  // What each scope receives

  /** The names applied to a scope are the order-preserving filter of the normalised
      request by that scope's valid list when the request is routed to that scope,
      and none otherwise: `cid` parsing to 0 routes to admin and global, anything
      else (NaN included) to the category `cid`. */
  lemma AppliedNamesByScope(caller: Caller, req: PrivilegeRequest, existence: Existence, lists: ValidLists,
                            scope: Scope)
    requires existence.isUser || existence.isGroup
    requires req.privilege != NameList([])
    ensures AppliedNames(SetPrivilege(caller, req, existence, lists).value, scope)
         == if Routed(req.cid, scope) then Filter(Normalize(req.privilege), ValidFor(lists, scope)) else []
  {
    PlanShape(caller, req, existence, lists);
    NamesBeforeLog(ScopeApplies(req.cid, VerbFor(req.grant), Normalize(req.privilege), req.member, lists),
                   PrivilegeChangeEvent(caller, req), scope);
    ScopeAppliesNames(req.cid, VerbFor(req.grant), Normalize(req.privilege), req.member, lists, scope);
  }

  /** The audit event adds no names to any scope. */
  lemma NamesBeforeLog(applies: seq<Effect>, ev: AuditEvent, scope: Scope)
    ensures AppliedNames(applies + [Log(ev)], scope) == AppliedNames(applies, scope)
  {
    AppliedNamesAppend(applies, [Log(ev)], scope);
    assert [Log(ev)][1..] == [];
  }

  /** How often each scope is called: admin and global once each when the request is
      routed there and the filtered subset is non-empty, the routed category exactly
      once even when its subset is empty, every other scope never. */
  lemma ApplyCountByScope(caller: Caller, req: PrivilegeRequest, existence: Existence, lists: ValidLists,
                          scope: Scope)
    requires existence.isUser || existence.isGroup
    requires req.privilege != NameList([])
    ensures ApplyCount(SetPrivilege(caller, req, existence, lists).value, scope)
         == if !Routed(req.cid, scope) then 0
            else if scope.CategoryScope? then 1
            else if |Filter(Normalize(req.privilege), ValidFor(lists, scope))| > 0 then 1
            else 0
  {
    var applies := ScopeApplies(req.cid, VerbFor(req.grant), Normalize(req.privilege), req.member, lists);
    var log := [Log(PrivilegeChangeEvent(caller, req))];
    PlanShape(caller, req, existence, lists);
    ApplyCountAppend(applies, log, scope);
    ScopeAppliesCount(req.cid, VerbFor(req.grant), Normalize(req.privilege), req.member, lists, scope);
  }

  /** Multiplicities: a requested name reaches a routed scope that lists it exactly as
      many times as it was requested (duplicates kept), and no other scope at all. */
  lemma AppliedMultiplicity(caller: Caller, req: PrivilegeRequest, existence: Existence, lists: ValidLists,
                            scope: Scope, x: string)
    requires existence.isUser || existence.isGroup
    requires req.privilege != NameList([])
    ensures multiset(AppliedNames(SetPrivilege(caller, req, existence, lists).value, scope))[x]
         == if Routed(req.cid, scope) && x in ValidFor(lists, scope) then multiset(Normalize(req.privilege))[x] else 0
  {
    AppliedNamesByScope(caller, req, existence, lists, scope);
    FilterMultiplicity(Normalize(req.privilege), ValidFor(lists, scope), x);
  }

  /** The names applied to a scope keep the order of the request. */
  lemma AppliedNamesKeepOrder(caller: Caller, req: PrivilegeRequest, existence: Existence, lists: ValidLists,
                              scope: Scope)
    requires existence.isUser || existence.isGroup
    requires req.privilege != NameList([])
    ensures IsSubsequence(AppliedNames(SetPrivilege(caller, req, existence, lists).value, scope),
                          Normalize(req.privilege))
  {
    AppliedNamesByScope(caller, req, existence, lists, scope);
    if Routed(req.cid, scope) {
      FilterIsSubsequence(Normalize(req.privilege), ValidFor(lists, scope));
    }
  }

  /** No name is ever applied to a scope whose valid list lacks it, and only requested
      names are applied. */
  lemma AppliedNamesAreValid(caller: Caller, req: PrivilegeRequest, existence: Existence, lists: ValidLists,
                             scope: Scope, x: string)
    requires existence.isUser || existence.isGroup
    requires req.privilege != NameList([])
    requires x in AppliedNames(SetPrivilege(caller, req, existence, lists).value, scope)
    ensures x in ValidFor(lists, scope) && x in Normalize(req.privilege)
  {
    AppliedNamesByScope(caller, req, existence, lists, scope);
  }

  /** A name in no valid list is applied nowhere and causes no error. */
  lemma UnknownNameAppliedNowhere(caller: Caller, req: PrivilegeRequest, existence: Existence, lists: ValidLists,
                                  x: string)
    requires existence.isUser || existence.isGroup
    requires req.privilege != NameList([])
    requires x !in lists.admin && x !in lists.global && x !in lists.category
    ensures SetPrivilege(caller, req, existence, lists).Success?
    ensures forall scope :: x !in AppliedNames(SetPrivilege(caller, req, existence, lists).value, scope)
  {
    forall scope ensures x !in AppliedNames(SetPrivilege(caller, req, existence, lists).value, scope) {
      NotAppliedOutsideList(caller, req, existence, lists, scope, x);
    }
  }

  lemma NotAppliedOutsideList(caller: Caller, req: PrivilegeRequest, existence: Existence, lists: ValidLists,
                              scope: Scope, x: string)
    requires existence.isUser || existence.isGroup
    requires req.privilege != NameList([])
    requires x !in ValidFor(lists, scope)
    ensures x !in AppliedNames(SetPrivilege(caller, req, existence, lists).value, scope)
  {
    AppliedNamesByScope(caller, req, existence, lists, scope);
  }

  // ---------------------------------------------------------------------------
  // Thrown errors

  /** The text each failure throws: a member that is neither user nor group gives
      `no-user-or-group`, an empty privilege list or a missing `update` payload
      gives `invalid-data`, and the two texts differ. */
  lemma ThrownMessages(caller: Caller, req: PrivilegeRequest, existence: Existence, lists: ValidLists)
    ensures var r := SetPrivilege(caller, req, existence, lists);
            r.Failure? ==> r.error.Message() == if !existence.isUser && !existence.isGroup
                                                then "[[error:no-user-or-group]]"
                                                else "[[error:invalid-data]]"
    ensures Update(None).error.Message() == "[[error:invalid-data]]"
    ensures InvalidData.Message() != NoUserOrGroup.Message()
  {
    assert "[[error:invalid-data]]"[8] != "[[error:no-user-or-group]]"[8];
  }

  // ---------------------------------------------------------------------------
  // Order, verb and audit

  /** In the dual-scope branch the admin call, when made, precedes the global call. */
  lemma AdminBeforeGlobal(caller: Caller, req: PrivilegeRequest, existence: Existence, lists: ValidLists)
    requires existence.isUser || existence.isGroup
    requires req.privilege != NameList([])
    ensures AdminPrecedesGlobal(SetPrivilege(caller, req, existence, lists).value)
  {
    PlanShape(caller, req, existence, lists);
    ScopeAppliesOrder(req.cid, VerbFor(req.grant), Normalize(req.privilege), req.member, lists,
                      [Log(PrivilegeChangeEvent(caller, req))]);
  }

  /** Admin calls precede global calls in the registry calls of a request, whatever
      non-registry effects follow them. */
  lemma ScopeAppliesOrder(cid: string, verb: Verb, privs: seq<string>, member: string, lists: ValidLists,
                          rest: seq<Effect>)
    requires forall k :: 0 <= k < |rest| ==> !rest[k].Apply?
    ensures AdminPrecedesGlobal(ScopeApplies(cid, verb, privs, member, lists) + rest)
  {
    NonApplyEffectsApplyNowhere(rest, AdminScope);
    if IsDualScope(cid) {
      DualOrder(verb, Filter(privs, lists.admin), Filter(privs, lists.global), member, rest);
    } else {
      var c := [Apply(CategoryScope(cid), verb, Filter(privs, lists.category), member)];
      CategoryOrder(c, rest);
    }
  }

  lemma DualOrder(verb: Verb, adminNames: seq<string>, globalNames: seq<string>, member: string, rest: seq<Effect>)
    requires ApplyCount(rest, AdminScope) == 0
    ensures AdminPrecedesGlobal(ApplyIfAny(AdminScope, verb, adminNames, member)
                                + ApplyIfAny(GlobalScope, verb, globalNames, member) + rest)
  {
    var a := ApplyIfAny(AdminScope, verb, adminNames, member);
    var g := ApplyIfAny(GlobalScope, verb, globalNames, member);
    assert a + g + rest == a + (g + rest);
    ApplyCountAppend(g, rest, AdminScope);
    SeparatedAt(a, g + rest);
  }

  lemma CategoryOrder(c: seq<Effect>, rest: seq<Effect>)
    requires ApplyCount(c, AdminScope) == 0 && ApplyCount(rest, AdminScope) == 0
    ensures AdminPrecedesGlobal(c + rest)
  {
    ApplyCountAppend(c, rest, AdminScope);
    assert [] + (c + rest) == c + rest;
    SeparatedAt([], c + rest);
  }

  /** Every admin call of the trace comes before every global call. */
  predicate AdminPrecedesGlobal(t: seq<Effect>) {
    forall i, j :: 0 <= i < |t| && 0 <= j < |t| && AppliesTo(t[i], AdminScope) && AppliesTo(t[j], GlobalScope)
      ==> i < j
  }

  /** A trace without registry calls calls no scope. */
  lemma NonApplyEffectsApplyNowhere(t: seq<Effect>, scope: Scope)
    requires forall k :: 0 <= k < |t| ==> !t[k].Apply?
    ensures ApplyCount(t, scope) == 0
  {
  }

  /** If the first part of a trace calls no global scope and the second part no admin
      scope, every admin call precedes every global call. */
  lemma SeparatedAt(front: seq<Effect>, back: seq<Effect>)
    requires ApplyCount(front, GlobalScope) == 0
    requires ApplyCount(back, AdminScope) == 0
    ensures AdminPrecedesGlobal(front + back)
  {
    var t := front + back;
    forall i, j | 0 <= i < |t| && 0 <= j < |t| && AppliesTo(t[i], AdminScope) && AppliesTo(t[j], GlobalScope)
      ensures i < j
    {
    }
  }

  /** Exactly one audit event is written, after every registry call, and it records
      the unfiltered input text, the `cid` as supplied and the member as target. */
  lemma SingleAuditEventLast(caller: Caller, req: PrivilegeRequest, existence: Existence, lists: ValidLists)
    requires existence.isUser || existence.isGroup
    requires req.privilege != NameList([])
    ensures var t := SetPrivilege(caller, req, existence, lists).value;
            && LogCount(t) == 1
            && t[|t| - 1].Log?
            && t[|t| - 1].event.privilege == Join(Normalize(req.privilege), ',')
            && t[|t| - 1].event.cid == req.cid
            && t[|t| - 1].event.target == req.member
  {
    var applies := ScopeApplies(req.cid, VerbFor(req.grant), Normalize(req.privilege), req.member, lists);
    var log := [Log(PrivilegeChangeEvent(caller, req))];
    PlanShape(caller, req, existence, lists);
    LogCountAppend(applies, log);
    assert LogCount(applies) == 0;
    assert LogCount(log) == 1 by { assert log[1..] == []; }
  }

  /** The registry verb is `give` exactly when the audit action is `grant`, and both
      follow the truthiness of `set`. */
  lemma VerbAgreesWithAuditAction(caller: Caller, req: PrivilegeRequest, existence: Existence, lists: ValidLists)
    requires existence.isUser || existence.isGroup
    requires req.privilege != NameList([])
    ensures VerbMatchesAction(SetPrivilege(caller, req, existence, lists).value, req.grant)
  {
    PlanShape(caller, req, existence, lists);
    TraceVerbMatches(ScopeApplies(req.cid, VerbFor(req.grant), Normalize(req.privilege), req.member, lists),
                     PrivilegeChangeEvent(caller, req), req.grant);
  }

  lemma TraceVerbMatches(applies: seq<Effect>, ev: AuditEvent, grant: bool)
    requires forall i :: 0 <= i < |applies| ==> applies[i].Apply? && applies[i].verb == VerbFor(grant)
    requires ev.PrivilegeChange? && ev.action == AuditAction(grant)
    ensures VerbMatchesAction(applies + [Log(ev)], grant)
  {
    AuditActionIff(grant);
    var t := applies + [Log(ev)];
    forall i | 0 <= i < |t| && t[i].Apply? ensures t[i].verb == VerbFor(grant) {
      assert i < |applies|;
      assert t[i] == applies[i];
    }
  }

  /** The trace ends in an audit event whose action is `grant` exactly when `grant`
      holds (and `rescind` exactly when it does not), and every registry call uses
      `give` exactly when that action is `grant`. */
  predicate VerbMatchesAction(t: seq<Effect>, grant: bool) {
    && |t| > 0 && t[|t| - 1].Log? && t[|t| - 1].event.PrivilegeChange?
    && (t[|t| - 1].event.action == "grant" <==> grant)
    && (t[|t| - 1].event.action == "rescind" <==> !grant)
    && forall i :: 0 <= i < |t| && t[i].Apply? ==> (t[i].verb == Give <==> t[|t| - 1].event.action == "grant")
  }

  lemma AuditActionIff(grant: bool)
    ensures AuditAction(grant) == "grant" <==> grant
    ensures AuditAction(grant) == "rescind" <==> !grant
  {
    assert "grant" != "rescind" by { assert "grant"[0] != "rescind"[0]; }
  }

  /** When no requested name contains a comma, the audit text determines the
      requested list: splitting it at commas gives the normalised request back. */
  lemma AuditTextRecoversRequest(caller: Caller, req: PrivilegeRequest, existence: Existence, lists: ValidLists)
    requires existence.isUser || existence.isGroup
    requires req.privilege != NameList([])
    requires forall i :: 0 <= i < |Normalize(req.privilege)| ==> ',' !in Normalize(req.privilege)[i]
    ensures var t := SetPrivilege(caller, req, existence, lists).value;
            Split(t[|t| - 1].event.privilege, ',') == Normalize(req.privilege)
  {
    SplitJoin(Normalize(req.privilege), ',');
  }

  /** A single name and the one-element list holding it are logged identically. */
  lemma SingleNameLoggedAsList(name: string)
    ensures PrivilegeText(OneName(name)) == PrivilegeText(NameList([name]))
    ensures Normalize(OneName(name)) == Normalize(NameList([name]))
  {
  }

  // ---------------------------------------------------------------------------
  // Routing by `cid`

  /** A `cid` that is NaN — `admin`, for one — takes the category branch of
      `setPrivilege`: one category call keyed by that `cid`, no admin or global call. */
  lemma NaNCidTakesCategoryBranch(caller: Caller, req: PrivilegeRequest, existence: Existence, lists: ValidLists)
    requires existence.isUser || existence.isGroup
    requires req.privilege != NameList([])
    requires ParseInt(req.cid).None?
    ensures var t := SetPrivilege(caller, req, existence, lists).value;
            && ApplyCount(t, CategoryScope(req.cid)) == 1
            && ApplyCount(t, AdminScope) == 0
            && ApplyCount(t, GlobalScope) == 0
  {
    ApplyCountByScope(caller, req, existence, lists, CategoryScope(req.cid));
    ApplyCountByScope(caller, req, existence, lists, AdminScope);
    ApplyCountByScope(caller, req, existence, lists, GlobalScope);
  }

  /** `getPrivileges` and `setPrivilege` agree on every numeric `cid`: the global
      listing is chosen exactly when the planner takes the admin/global branch. */
  lemma ListingAgreesWithPlanOnNumbers(caller: Caller, cid: string)
    requires ParseInt(cid).Some?
    ensures PrivilegeListing(caller, cid) == GlobalListing <==> IsDualScope(cid)
    ensures PrivilegeListing(caller, cid) == CategoryListing(cid) <==> Routed(cid, CategoryScope(cid))
  {
    assert cid != "admin" by {
      ParseIntOfAdmin();
    }
  }

  /** They disagree on NaN: `getPrivileges` lists the global scope (`admin` aside)
      while `setPrivilege` routes the same `cid` to the category registry. */
  lemma ListingDivergesFromPlanOnNaN(caller: Caller, cid: string)
    requires ParseInt(cid).None?
    ensures cid != "admin" ==> PrivilegeListing(caller, cid) == GlobalListing
    ensures cid == "admin" ==> PrivilegeListing(caller, cid) == AdminListing(caller.uid)
    ensures Routed(cid, CategoryScope(cid)) && !Routed(cid, GlobalScope) && !Routed(cid, AdminScope)
  {
  }

  // ---------------------------------------------------------------------------
  // Worked requests

  /** Site-wide request (`cid` "0") for an admin name, a global name and a name in
      neither list: one admin call with the admin name, one global call with the
      global name, the third name nowhere, then the audit event. */
  lemma PartitionExample(caller: Caller, member: string, adminName: string, globalName: string, unknown: string,
                         categoryList: seq<string>)
    requires adminName != globalName && adminName != unknown && globalName != unknown
    ensures var req := PrivilegeRequest("0", NameList([adminName, globalName, unknown]), member, true);
            SetPrivilege(caller, req, Existence(true, false), ValidLists([adminName], [globalName], categoryList))
            == Success([Apply(AdminScope, Give, [adminName], member),
                        Apply(GlobalScope, Give, [globalName], member),
                        Log(PrivilegeChangeEvent(caller, req))])
  {
    var privs := [adminName, globalName, unknown];
    var req := PrivilegeRequest("0", NameList(privs), member, true);
    var lists := ValidLists([adminName], [globalName], categoryList);
    ParseIntZeroSpelling();
    FilterOfThree(adminName, globalName, unknown);
    var applies := [Apply(AdminScope, Give, [adminName], member), Apply(GlobalScope, Give, [globalName], member)];
    DualSingletons(Give, privs, member, lists, adminName, globalName);
    SuccessfulPlan(caller, req, Existence(true, false), lists, applies);
    assert applies + [Log(PrivilegeChangeEvent(caller, req))]
        == [applies[0], applies[1], Log(PrivilegeChangeEvent(caller, req))];
  }

  /** A plan whose registry calls are known is known in full. */
  lemma SuccessfulPlan(caller: Caller, req: PrivilegeRequest, existence: Existence, lists: ValidLists,
                       applies: seq<Effect>)
    requires existence.isUser || existence.isGroup
    requires req.privilege != NameList([])
    requires ScopeApplies(req.cid, VerbFor(req.grant), Normalize(req.privilege), req.member, lists) == applies
    ensures SetPrivilege(caller, req, existence, lists) == Success(applies + [Log(PrivilegeChangeEvent(caller, req))])
  {
    PlanShape(caller, req, existence, lists);
  }

  /** On the admin/global branch, one valid name per scope gives one call per scope. */
  lemma DualSingletons(verb: Verb, privs: seq<string>, member: string, lists: ValidLists, a: string, g: string)
    requires Filter(privs, lists.admin) == [a] && Filter(privs, lists.global) == [g]
    ensures ScopeApplies("0", verb, privs, member, lists)
         == [Apply(AdminScope, verb, [a], member), Apply(GlobalScope, verb, [g], member)]
  {
    ParseIntZeroSpelling();
    assert ApplyIfAny(AdminScope, verb, [a], member) == [Apply(AdminScope, verb, [a], member)];
    assert ApplyIfAny(GlobalScope, verb, [g], member) == [Apply(GlobalScope, verb, [g], member)];
  }

  lemma FilterOfThree(a: string, g: string, u: string)
    requires a != g && a != u && g != u
    ensures Filter([a, g, u], [a]) == [a]
    ensures Filter([a, g, u], [g]) == [g]
  {
    var privs := [a, g, u];
    assert privs[1..] == [g, u];
    assert privs[1..][1..] == [u];
    assert Filter([u], [a]) == [] && Filter([u], [g]) == [];
    assert Filter([g, u], [a]) == [];
    assert Filter([g, u], [g]) == [g];
  }

  /** Category request whose only name the category list lacks: the category call is
      still made, with an empty list. */
  lemma EmptyCategoryApplyExample(caller: Caller, member: string, bogus: string, valid: string)
    requires bogus != valid
    ensures var req := PrivilegeRequest("5", NameList([bogus]), member, true);
            SetPrivilege(caller, req, Existence(false, true), ValidLists([], [], [valid]))
            == Success([Apply(CategoryScope("5"), Give, [], member), Log(PrivilegeChangeEvent(caller, req))])
  {
    var req := PrivilegeRequest("5", NameList([bogus]), member, true);
    var lists := ValidLists([], [], [valid]);
    ParseIntOfFive();
    assert Filter([bogus], lists.category) == [];
    var apply := Apply(CategoryScope("5"), Give, [], member);
    assert ScopeApplies("5", Give, [bogus], member, lists) == [apply];
    var log := Log(PrivilegeChangeEvent(caller, req));
    PlanShape(caller, req, Existence(false, true), lists);
    assert [apply] + [log] == [apply, log];
  }

  lemma ParseIntZeroSpelling()
    ensures ParseInt("0") == Some(0)
  {
    ParseIntOfDigit(0);
    assert [DigitChar(0)] == "0";
  }

  lemma ParseIntOfFive()
    ensures ParseInt("5") == Some(5)
  {
    ParseIntOfDigit(5);
    assert [DigitChar(5)] == "5";
  }
}
