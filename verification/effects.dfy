/** The writes the categories API makes on its collaborators (and the name read of
    `delete` and the re-fetch of `create`), recorded as an ordered trace of effects,
    and the functions that read a trace back: how often a scope was applied to, which
    names it received, how many audit events were written. */
module Effects {

  /** The registry operation selected by the truthiness of `set`: `give` or `rescind`. */
  datatype Verb = Give | Rescind

  /** The three privilege scopes: administration, site-wide, and one category. */
  datatype Scope = AdminScope | GlobalScope | CategoryScope(cid: string)

  /** The acting caller: its `uid` goes into audit events, the purge and fetch calls
      and the admin listing; its `ip` into audit events only. */
  datatype Caller = Caller(uid: int, ip: string)

  /** A category record or payload, opaque to the API layer. */
  datatype CategoryData = CategoryData(fields: map<string, string>)

  datatype AuditEvent =
    | PrivilegeChange(uid: int, ip: string, privilege: string, cid: string, action: string, target: string)
    | CategoryPurge(uid: int, ip: string, cid: string, name: string)

  datatype Effect =
    | Apply(scope: Scope, verb: Verb, names: seq<string>, member: string)
    | ReadCategoryName(cid: string)
    | Purge(cid: string, uid: int)
    | StoreUpdate(data: CategoryData)
    | StoreCreate(data: CategoryData)
    | FetchCategories(cids: seq<string>, uid: int)
    | Log(event: AuditEvent)

  predicate AppliesTo(e: Effect, scope: Scope) {
    e.Apply? && e.scope == scope
  }

  /** Number of registry calls on `scope` in the trace. */
  function ApplyCount(t: seq<Effect>, scope: Scope): (n: nat)
    ensures n <= |t|
    ensures n == 0 <==> forall i :: 0 <= i < |t| ==> !AppliesTo(t[i], scope)
  {
    if |t| == 0 then 0
    else (if AppliesTo(t[0], scope) then 1 else 0) + ApplyCount(t[1..], scope)
  }

  /** All names handed to registry calls on `scope`, in trace order. */
  function AppliedNames(t: seq<Effect>, scope: Scope): (names: seq<string>)
    ensures forall x :: x in names ==> exists i :: 0 <= i < |t| && AppliesTo(t[i], scope) && x in t[i].names
  {
    if |t| == 0 then []
    else (if AppliesTo(t[0], scope) then t[0].names else []) + AppliedNames(t[1..], scope)
  }

  /** Number of audit events written. */
  function LogCount(t: seq<Effect>): (n: nat)
    ensures n <= |t|
    ensures n == 0 <==> forall i :: 0 <= i < |t| ==> !t[i].Log?
  {
    if |t| == 0 then 0
    else (if t[0].Log? then 1 else 0) + LogCount(t[1..])
  }

  lemma {:induction false} ApplyCountAppend(a: seq<Effect>, b: seq<Effect>, scope: Scope)
    ensures ApplyCount(a + b, scope) == ApplyCount(a, scope) + ApplyCount(b, scope)
  {
    if |a| == 0 {
      assert a + b == b;
    } else {
      assert (a + b)[1..] == a[1..] + b;
      ApplyCountAppend(a[1..], b, scope);
    }
  }

  lemma {:induction false} AppliedNamesAppend(a: seq<Effect>, b: seq<Effect>, scope: Scope)
    ensures AppliedNames(a + b, scope) == AppliedNames(a, scope) + AppliedNames(b, scope)
  {
    if |a| == 0 {
      assert a + b == b;
    } else {
      assert (a + b)[1..] == a[1..] + b;
      AppliedNamesAppend(a[1..], b, scope);
    }
  }

  lemma {:induction false} LogCountAppend(a: seq<Effect>, b: seq<Effect>)
    ensures LogCount(a + b) == LogCount(a) + LogCount(b)
  {
    if |a| == 0 {
      assert a + b == b;
    } else {
      assert (a + b)[1..] == a[1..] + b;
      LogCountAppend(a[1..], b);
    }
  }
}
