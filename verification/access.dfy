/** Who may do what: the two custom permission classes, the default denial
    answers, and the per-viewset visibility filters that `get_object` applies
    before any object-level check. */
module Access {
  import opened Wrappers

  datatype User = User(id: nat, isStaff: bool, isSuperuser: bool)

  /** The caller of a request: nobody signed in, or an authenticated user. */
  datatype Actor = Anonymous | Member(user: User)

  predicate IsAdmin(u: User) { u.isStaff || u.isSuperuser }

  /** How a record refers to its owner: some records have no `user` field;
      those that do may leave it empty. */
  datatype Ownership = NoUserField | UserField(owner: Option<nat>)

  /** `IsAdminOrStaff.has_permission`. */
  function AdminOrStaff(a: Actor): (ok: bool)
    ensures ok ==> a.Member?
    ensures a.Member? ==> (ok <==> IsAdmin(a.user))
  {
    a.Member? && IsAdmin(a.user)
  }

  /** `IsOwnerOrAdmin.has_object_permission`: an admin passes; otherwise only
      the user a record's `user` field names. Anonymous callers carry no
      staff flags and equal no user. */
  function OwnerOrAdmin(a: Actor, obj: Ownership): (ok: bool)
    ensures a.Anonymous? ==> !ok
    ensures obj.NoUserField? ==> (ok <==> AdminOrStaff(a))
    ensures obj.UserField? && obj.owner.None? ==> (ok <==> AdminOrStaff(a))
    ensures a.Member? && !IsAdmin(a.user) ==> (ok <==> obj == UserField(Some(a.user.id)))
  {
    if a.Anonymous? then false
    else if IsAdmin(a.user) then true
    else obj.UserField? && obj.owner == Some(a.user.id)
  }

  /** The answer when a permission class refuses: with token authentication
      first in line, an anonymous caller is told to authenticate (401) and a
      signed-in one is refused (403). */
  function Refusal(a: Actor): (e: ApiError)
    ensures Status(e) == (if a.Anonymous? then 401 else 403)
  {
    if a.Anonymous? then NotAuthenticated else PermissionDenied
  }

  /** The `IsAuthenticated` gate. */
  function RequireMember(a: Actor): (r: Result<User>)
    ensures r.Ok? <==> a.Member?
    ensures r.Ok? ==> r.value == a.user
    ensures r.Err? ==> r.error == NotAuthenticated
  {
    if a.Member? then Ok(a.user) else Err(NotAuthenticated)
  }

  /** The `IsAdminOrStaff` gate. */
  function RequireAdmin(a: Actor): (r: Result<User>)
    ensures r.Ok? <==> AdminOrStaff(a)
    ensures r.Ok? ==> a == Member(r.value) && IsAdmin(r.value)
    ensures r.Err? ==> r.error == Refusal(a)
  {
    if AdminOrStaff(a) then Ok(a.user) else Err(Refusal(a))
  }

  /** The `get_queryset` filter of financing applications and enterprise
      orders, for a signed-in user: staff and superusers see every record,
      anyone else only their own. */
  predicate SeesOwnOrAll(u: User, owner: Option<nat>) {
    IsAdmin(u) || owner == Some(u.id)
  }

  /** The `get_queryset` filter of shop orders: as above, and an anonymous
      caller sees none. */
  predicate SeesOrder(a: Actor, owner: Option<nat>) {
    a.Member? && SeesOwnOrAll(a.user, owner)
  }

  /** On records that carry an owner, the object-level check agrees exactly
      with the visibility filter: every record `get_object` can return to a
      member passes `IsOwnerOrAdmin`, and no other record does. */
  lemma OwnerOrAdminIsVisibility(u: User, owner: Option<nat>)
    ensures OwnerOrAdmin(Member(u), UserField(owner)) <==> SeesOwnOrAll(u, owner)
    ensures OwnerOrAdmin(Member(u), UserField(owner)) <==> SeesOrder(Member(u), owner)
  {
  }

  /** The staff gate is stricter than the owner gate: whoever passes the
      first passes the second on any record. */
  lemma AdminPassesOwnerCheck(a: Actor, obj: Ownership)
    requires AdminOrStaff(a)
    ensures OwnerOrAdmin(a, obj)
  {
  }
}
