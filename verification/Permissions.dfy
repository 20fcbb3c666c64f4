/**
 The decoded token with its resolved identity, and the string-encoded permission checks of
 the backend (security.py) and of the frontend (AuthContext.tsx).
 */
module Permissions {
  import opened Wrappers

  datatype TokenPayload = TokenPayload(
    sub: string,
    realmRoles: seq<string>,
    internalUserId: Option<nat>,
    dbIsAdmin: bool,
    dbIsManager: bool,
    dbIsApprover: bool,
    dbIsHr: bool,
    permissions: seq<string>)
  {
    predicate HasRole(role: string) {
      role in realmRoles
    }

    predicate IsAdmin() {
      HasRole("admin") || dbIsAdmin
    }

    /** An empty scope is falsy and means no scope. */
    predicate HasPermission(permission: string, requiredScope: Option<string>) {
      if IsAdmin() then true
      else if permission + ":GLOBAL" in permissions then true
      else if requiredScope.GetOr("") != "" then permission + ":" + requiredScope.value in permissions
      else exists p <- permissions :: permission + ":" <= p
    }
  }

  // ---------------------------------------------------------------- frontend

  function UpperChar(c: char): char {
    if 'a' <= c <= 'z' then c - 'a' + 'A' else c
  }

  function ToUpper(s: string): (u: string)
    ensures |u| == |s|
  {
    seq(|s|, i requires 0 <= i < |s| => UpperChar(s[i]))
  }

  /** hasPermission of AuthContext.tsx for a logged-in user; `isAdmin` is its admin flag. */
  predicate UiHasPermission(isAdmin: bool, permissions: seq<string>, permission: string, scope: Option<string>) {
    if isAdmin then true
    else
      var search := permission + ":" + (if scope.GetOr("") != "" then ToUpper(scope.value) else "");
      exists p <- permissions :: search <= p || p == permission
  }

  // ---------------------------------------------------------------- grants

  /** What an entry of `permissions` means. */
  datatype Grant = Grant(resource: string, action: string, scope: string)

  predicate ColonFree(s: string) {
    ':' !in s
  }

  predicate WellFormed(g: Grant) {
    ColonFree(g.resource) && ColonFree(g.action) && ColonFree(g.scope)
  }

  function Code(resource: string, action: string): string {
    resource + ":" + action
  }

  function Encode(g: Grant): string {
    Code(g.resource, g.action) + ":" + g.scope
  }

  function EncodeAll(grants: seq<Grant>): (entries: seq<string>)
    ensures |entries| == |grants|
  {
    seq(|grants|, i requires 0 <= i < |grants| => Encode(grants[i]))
  }

  /** A colon-free head is determined by the text up to the first colon. */
  lemma FirstColon(a: string, x: string, b: string, y: string)
    requires ColonFree(a) && ColonFree(b)
    requires a + ":" + x <= b + ":" + y
    ensures a == b && x <= y
  {
    var left, right := a + ":" + x, b + ":" + y;
    assert left[|a|] == ':' && right[|b|] == ':';
    assert |a| == |b|;
    assert a == left[..|a|] == right[..|b|] == b;
    assert x == left[|a| + 1..] && y == right[|b| + 1..];
    assert forall i :: 0 <= i < |x| ==> x[i] == left[|a| + 1 + i];
  }

  /** The search string of a code and a scope prefix meets exactly the grants of that code. */
  lemma PrefixMeaning(resource: string, action: string, scope: string, g: Grant)
    requires ColonFree(resource) && ColonFree(action) && WellFormed(g)
    ensures Code(resource, action) + ":" + scope <= Encode(g) <==>
            g.resource == resource && g.action == action && scope <= g.scope
  {
    if Code(resource, action) + ":" + scope <= Encode(g) {
      var x, y := action + ":" + scope, g.action + ":" + g.scope;
      assert Code(resource, action) + ":" + scope == resource + ":" + x;
      assert Encode(g) == g.resource + ":" + y;
      FirstColon(resource, x, g.resource, y);
      FirstColon(action, scope, g.action, g.scope);
    }
  }

  lemma EncodingMeaning(resource: string, action: string, scope: string, g: Grant)
    requires ColonFree(resource) && ColonFree(action) && WellFormed(g)
    ensures Code(resource, action) + ":" + scope == Encode(g) <==> g == Grant(resource, action, scope)
  {
    PrefixMeaning(resource, action, scope, g);
  }

  lemma EntryMeaning(resource: string, action: string, scope: string, grants: seq<Grant>)
    requires ColonFree(resource) && ColonFree(action) && forall g <- grants :: WellFormed(g)
    ensures Code(resource, action) + ":" + scope in EncodeAll(grants) <==> Grant(resource, action, scope) in grants
    ensures (exists p <- EncodeAll(grants) :: Code(resource, action) + ":" + scope <= p) <==>
            (exists g <- grants :: g.resource == resource && g.action == action && scope <= g.scope)
  {
    forall i | 0 <= i < |grants|
      ensures EncodeAll(grants)[i] == Code(resource, action) + ":" + scope <==>
              grants[i] == Grant(resource, action, scope)
      ensures Code(resource, action) + ":" + scope <= EncodeAll(grants)[i] <==>
              grants[i].resource == resource && grants[i].action == action && scope <= grants[i].scope
    {
      EncodingMeaning(resource, action, scope, grants[i]);
      PrefixMeaning(resource, action, scope, grants[i]);
    }
    if g :| g in grants && g.resource == resource && g.action == action && scope <= g.scope {
      var i :| 0 <= i < |grants| && grants[i] == g;
      assert EncodeAll(grants)[i] in EncodeAll(grants);
    }
  }

  /** The realm role alone and the database flag alone each suffice; else an entry of the code must match. */
  lemma PermissionMeaning(p: TokenPayload, permission: string, scope: string)
    ensures p.HasPermission(permission, None) <==>
            "admin" in p.realmRoles || p.dbIsAdmin || exists entry <- p.permissions :: permission + ":" <= entry
    ensures scope != "" ==>
              (p.HasPermission(permission, Some(scope)) <==>
               || "admin" in p.realmRoles || p.dbIsAdmin
               || permission + ":GLOBAL" in p.permissions || permission + ":" + scope in p.permissions)
    ensures p.HasPermission(permission, Some("")) <==> p.HasPermission(permission, None)
  {
    assert permission + ":" <= permission + ":GLOBAL";
  }

  /** Unscoped: some grant has exactly that code, or the caller is an admin. */
  lemma UnscopedIsSetCheck(p: TokenPayload, grants: seq<Grant>, resource: string, action: string)
    requires p.permissions == EncodeAll(grants) && forall g <- grants :: WellFormed(g)
    requires ColonFree(resource) && ColonFree(action)
    ensures p.HasPermission(Code(resource, action), None) <==>
            "admin" in p.realmRoles || p.dbIsAdmin || exists g <- grants :: g.resource == resource && g.action == action
  {
    EntryMeaning(resource, action, "GLOBAL", grants);
    EntryMeaning(resource, action, "", grants);
    assert Code(resource, action) + ":" + "GLOBAL" == Code(resource, action) + ":GLOBAL";
    assert Code(resource, action) + ":" + "" == Code(resource, action) + ":";
  }

  /** Scoped: that scope or GLOBAL is granted, or the caller is an admin. */
  lemma ScopedIsSetCheck(p: TokenPayload, grants: seq<Grant>, resource: string, action: string, scope: string)
    requires p.permissions == EncodeAll(grants) && forall g <- grants :: WellFormed(g)
    requires ColonFree(resource) && ColonFree(action) && scope != ""
    ensures p.HasPermission(Code(resource, action), Some(scope)) <==>
            || "admin" in p.realmRoles || p.dbIsAdmin
            || Grant(resource, action, scope) in grants || Grant(resource, action, "GLOBAL") in grants
  {
    EntryMeaning(resource, action, "GLOBAL", grants);
    EntryMeaning(resource, action, scope, grants);
    assert Code(resource, action) + ":" + "GLOBAL" == Code(resource, action) + ":GLOBAL";
  }

  /** Whatever the strings are, a scoped permission is also an unscoped one. */
  lemma ScopedImpliesUnscoped(p: TokenPayload, permission: string, scope: Option<string>)
    requires p.HasPermission(permission, scope)
    ensures p.HasPermission(permission, None)
  {
    if scope.GetOr("") != "" {
      var entry := permission + ":" + scope.value;
      assert permission + ":" <= entry;
    }
  }

  /** Any entries: the frontend's unscoped check differs exactly by accepting a bare permission code. */
  lemma UiUnscopedExact(p: TokenPayload, permission: string)
    ensures UiHasPermission(p.IsAdmin(), p.permissions, permission, None) <==>
            p.HasPermission(permission, None) || permission in p.permissions
  {
    var search := permission + ":";
    assert search + "" == search;
    assert search <= permission + ":GLOBAL";
  }

  /** On three-part entries the frontend's unscoped check is the backend's. */
  lemma UiUnscopedAgrees(p: TokenPayload, grants: seq<Grant>, resource: string, action: string)
    requires p.permissions == EncodeAll(grants) && forall g <- grants :: WellFormed(g)
    requires ColonFree(resource) && ColonFree(action)
    ensures UiHasPermission(p.IsAdmin(), p.permissions, Code(resource, action), None) ==
            p.HasPermission(Code(resource, action), None)
  {
    UiUnscopedExact(p, Code(resource, action));
    BareCodeAbsent(grants, resource, action);
  }

  lemma BareCodeAbsent(grants: seq<Grant>, resource: string, action: string)
    requires forall g <- grants :: WellFormed(g)
    requires ColonFree(resource) && ColonFree(action)
    ensures Code(resource, action) !in EncodeAll(grants)
  {
    forall i | 0 <= i < |grants| ensures EncodeAll(grants)[i] != Code(resource, action) {
      var g := grants[i];
      assert g in grants;
      var rest := g.action + ":" + g.scope;
      assert rest[|g.action|] == ':';
      assert Encode(g) == g.resource + ":" + rest;
      if Encode(g) == Code(resource, action) {
        FirstColon(g.resource, rest, resource, action);
      }
    }
  }

  /** `s` starts with the text of `scope` in capitals. */
  predicate UpperStarts(scope: string, s: string) {
    && |scope| <= |s|
    && forall i :: 0 <= i < |scope| ==> s[i] as int == scope[i] as int - if 'a' <= scope[i] <= 'z' then 32 else 0
  }

  /**
   With a scope the two checks are different tests: the frontend looks for a granted scope
   that starts with the upper-cased one and knows no GLOBAL.
   */
  lemma UiScopedExact(isAdmin: bool, grants: seq<Grant>, resource: string, action: string, scope: string)
    requires forall g <- grants :: WellFormed(g)
    requires ColonFree(resource) && ColonFree(action) && scope != ""
    ensures UiHasPermission(isAdmin, EncodeAll(grants), Code(resource, action), Some(scope)) <==>
            isAdmin || exists g <- grants :: g.resource == resource && g.action == action && UpperStarts(scope, g.scope)
  {
    assert forall g <- grants :: UpperStarts(scope, g.scope) <==> ToUpper(scope) <= g.scope;
    EntryMeaning(resource, action, ToUpper(scope), grants);
    BareCodeAbsent(grants, resource, action);
  }
}
