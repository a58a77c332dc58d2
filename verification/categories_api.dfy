/** The categories API layer: `get`, `create`, `update`, `delete`, `getPrivileges`
    and the privilege-change planner `setPrivilege`. Every collaborator answer
    (whether the member is a user or a group, the valid-privilege list of each scope,
    the caller's read permission, the stored category data) is an input; the writes
    the operation makes, the name read of `delete` and the re-fetch of `create` are
    the entries of the returned effect trace. */
module CategoriesApi {
  import opened Wrappers
  import opened Seqs
  import opened EcmaParseInt
  import opened Effects

  /** The two typed errors the API raises, with the message string it throws. */
  datatype ApiError = InvalidData | NoUserOrGroup {
    function Message(): string {
      match this
      case InvalidData => "[[error:invalid-data]]"
      case NoUserOrGroup => "[[error:no-user-or-group]]"
    }
  }

  /** `data.privilege`: either one name or an array of names. */
  datatype PrivilegeInput = OneName(name: string) | NameList(names: seq<string>)

  /** The `data` argument of `setPrivilege`; `grant` is the truthiness of its `set` field. */
  datatype PrivilegeRequest = PrivilegeRequest(cid: string, privilege: PrivilegeInput, member: string, grant: bool)

  /** The joint answer of `user.exists(member)` and `groups.exists(member)`. */
  datatype Existence = Existence(isUser: bool, isGroup: bool)

  /** The answers of `getPrivilegeList()` for the admin, global and categories registries. */
  datatype ValidLists = ValidLists(admin: seq<string>, global: seq<string>, category: seq<string>)

  /** Which registry listing `getPrivileges` returns. */
  datatype Listing = AdminListing(uid: int) | GlobalListing | CategoryListing(cid: string)

  // ---------------------------------------------------------------------------
  // get, create, update, delete

  /** `get`: the category data, or `null` unless the data exists and the caller may read. */
  function Get(canRead: bool, data: Option<CategoryData>): (r: Option<CategoryData>)
    ensures r.Some? <==> canRead && data.Some?
    ensures r.Some? ==> r == data
  {
    if data.None? || !canRead then None else data
  }

  /** `create`: store the category, then fetch its caller-specific view by the new
      `cid`; the answer is the first fetched object, `undefined` when there is none.
      Creating touches no privilege registry and writes no audit event. */
  function Create(caller: Caller, data: CategoryData, newCid: string, fetched: seq<CategoryData>)
    : (r: (seq<Effect>, Option<CategoryData>))
    ensures LogCount(r.0) == 0 && forall s :: ApplyCount(r.0, s) == 0
    ensures StoreCreate(data) in r.0 && FetchCategories([newCid], caller.uid) in r.0
    ensures |r.0| == 2 && forall e :: e in r.0 ==> e == StoreCreate(data) || e == FetchCategories([newCid], caller.uid)
    ensures forall i, j :: 0 <= i < |r.0| && 0 <= j < |r.0| && r.0[i].StoreCreate? && r.0[j].FetchCategories? ==> i < j
    ensures r.1.Some? <==> |fetched| > 0
    ensures r.1.Some? ==> r.1.value == fetched[0]
  {
    ([StoreCreate(data), FetchCategories([newCid], caller.uid)],
     if |fetched| == 0 then None else Some(fetched[0]))
  }

  /** `update`: a missing payload is `invalid-data` before any store call. */
  function Update(data: Option<CategoryData>): (r: Result<seq<Effect>, ApiError>)
    ensures r.Failure? <==> data.None?
    ensures r.Failure? ==> r.error == InvalidData
    ensures r.Success? ==> r.value == [StoreUpdate(data.value)]
  {
    match data
    case None => Failure(InvalidData)
    case Some(d) => Success([StoreUpdate(d)])
  }

  /** `delete`: read the category name, purge the category, then log one
      `category-purge` event carrying the name read before the purge. */
  function Delete(caller: Caller, cid: string, name: string): (t: seq<Effect>)
    ensures LogCount(t) == 1
    ensures t[|t| - 1] == Log(CategoryPurge(caller.uid, caller.ip, cid, name))
    ensures forall i, j :: 0 <= i < |t| && 0 <= j < |t| && t[i] == ReadCategoryName(cid) && t[j].Purge? ==> i < j
    ensures ReadCategoryName(cid) in t && Purge(cid, caller.uid) in t
    ensures |t| == 3 && forall e :: e in t ==> e == ReadCategoryName(cid) || e == Purge(cid, caller.uid) || e.Log?
    ensures forall s :: ApplyCount(t, s) == 0
  {
    var t := [ReadCategoryName(cid), Purge(cid, caller.uid), Log(CategoryPurge(caller.uid, caller.ip, cid, name))];
    assert LogCount(t[2..]) == 1;
    assert LogCount(t[1..]) == 1 by { assert t[1..][1..] == t[2..]; }
    t
  }

  // ---------------------------------------------------------------------------
  // getPrivileges

  /** `getPrivileges`: `admin` selects the admin listing; any identifier whose
      `parseInt` is falsy (NaN or zero) the global listing; anything else the listing
      of that category, keyed by the identifier as given. */
  function PrivilegeListing(caller: Caller, cid: string): (r: Listing)
    ensures r.AdminListing? <==> cid == "admin"
    ensures r.AdminListing? ==> r.uid == caller.uid
    ensures r.GlobalListing? <==> cid != "admin" && (ParseInt(cid).None? || ParseInt(cid) == Some(0))
    ensures r.CategoryListing? ==> r.cid == cid
  {
    if cid == "admin" then AdminListing(caller.uid)
    else if ParseInt(cid).None? || ParseInt(cid).value == 0 then GlobalListing
    else CategoryListing(cid)
  }

  // ---------------------------------------------------------------------------
  // setPrivilege

  /** A single name becomes a one-element list; a list is kept as it is. */
  function Normalize(p: PrivilegeInput): (privs: seq<string>)
    ensures |privs| == 0 <==> p == NameList([])
  {
    match p
    case OneName(n) => [n]
    case NameList(ns) => ns
  }

  /** `data.privilege.toString()`: the name itself, or the names joined by commas. */
  function PrivilegeText(p: PrivilegeInput): (text: string)
    ensures text == Join(Normalize(p), ',')
  {
    match p
    case OneName(n) => n
    case NameList(ns) => Join(ns, ',')
  }

  function VerbFor(grant: bool): Verb {
    if grant then Give else Rescind
  }

  /** The `action` field of the audit event. */
  function AuditAction(grant: bool): string {
    if grant then "grant" else "rescind"
  }

  /** `parseInt(cid, 10) === 0`: the request touches the admin and global scopes. */
  predicate IsDualScope(cid: string) {
    ParseInt(cid) == Some(0)
  }

  /** The valid-privilege list consulted for a scope. */
  function ValidFor(lists: ValidLists, scope: Scope): seq<string> {
    match scope
    case AdminScope => lists.admin
    case GlobalScope => lists.global
    case CategoryScope(_) => lists.category
  }

  /** The scopes a request with identifier `cid` is routed to. */
  predicate Routed(cid: string, scope: Scope) {
    if IsDualScope(cid) then scope == AdminScope || scope == GlobalScope
    else scope == CategoryScope(cid)
  }

  /** The admin and global registry calls, each skipped when its subset is empty. */
  function ApplyIfAny(scope: Scope, verb: Verb, names: seq<string>, member: string): (t: seq<Effect>)
    ensures forall i :: 0 <= i < |t| ==> t[i] == Apply(scope, verb, names, member)
    ensures forall s :: ApplyCount(t, s) == if s == scope && |names| > 0 then 1 else 0
    ensures forall s :: AppliedNames(t, s) == if s == scope then names else []
    ensures LogCount(t) == 0
  {
    if |names| > 0 then
      var call := [Apply(scope, verb, names, member)];
      assert call[1..] == [];
      call
    else []
  }

  /** Two traces of registry calls with one verb and member concatenate to another. */
  lemma CallsConcat(a: seq<Effect>, b: seq<Effect>, verb: Verb, member: string)
    requires forall i :: 0 <= i < |a| ==> a[i].Apply? && a[i].verb == verb && a[i].member == member
    requires forall i :: 0 <= i < |b| ==> b[i].Apply? && b[i].verb == verb && b[i].member == member
    ensures forall i :: 0 <= i < |a + b| ==> (a + b)[i].Apply? && (a + b)[i].verb == verb && (a + b)[i].member == member
  {
    forall i | |a| <= i < |a + b| ensures (a + b)[i] == b[i - |a|] {}
  }

  /** The registry calls of a request, before its audit event. */
  function ScopeApplies(cid: string, verb: Verb, privs: seq<string>, member: string, lists: ValidLists)
    : (t: seq<Effect>)
    ensures forall i :: 0 <= i < |t| ==> t[i].Apply? && t[i].verb == verb && t[i].member == member
  {
    if IsDualScope(cid) then
      var admin := ApplyIfAny(AdminScope, verb, Filter(privs, lists.admin), member);
      var global := ApplyIfAny(GlobalScope, verb, Filter(privs, lists.global), member);
      CallsConcat(admin, global, verb, member);
      admin + global
    else
      [Apply(CategoryScope(cid), verb, Filter(privs, lists.category), member)]
  }

  /** The `privilege-change` event: unfiltered input text, original `cid`, member as target. */
  function PrivilegeChangeEvent(caller: Caller, req: PrivilegeRequest): AuditEvent {
    PrivilegeChange(caller.uid, caller.ip, PrivilegeText(req.privilege), req.cid,
                    AuditAction(req.grant), req.member)
  }

  /** `setPrivilege`: check the target exists, normalise and check the list, apply
      the filtered subsets to the routed scopes, then log one audit event. */
  function SetPrivilege(caller: Caller, req: PrivilegeRequest, existence: Existence, lists: ValidLists)
    : (r: Result<seq<Effect>, ApiError>)
    ensures r.Success? <==> (existence.isUser || existence.isGroup) && req.privilege != NameList([])
    ensures r == Failure(NoUserOrGroup) <==> !existence.isUser && !existence.isGroup
    ensures r == Failure(InvalidData) <==>
              (existence.isUser || existence.isGroup) && req.privilege == NameList([])
    ensures r.Success? ==>
              && |r.value| > 0
              && r.value[|r.value| - 1] == Log(PrivilegeChangeEvent(caller, req))
              && forall i :: 0 <= i < |r.value| - 1 ==>
                   r.value[i].Apply? && r.value[i].verb == VerbFor(req.grant) && r.value[i].member == req.member
  {
    if !existence.isUser && !existence.isGroup then Failure(NoUserOrGroup)
    else
      var privs := Normalize(req.privilege);
      var verb := VerbFor(req.grant);
      if |privs| == 0 then Failure(InvalidData)
      else Success(ScopeApplies(req.cid, verb, privs, req.member, lists) + [Log(PrivilegeChangeEvent(caller, req))])
  }
}
