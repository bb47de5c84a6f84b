/** Access-control predicates: who may view or edit an image request, who
    may start, stop, restart or delete a deployment, and the role gate that
    guards individual routes (`samosval/access.py`). */
module Access {
  import opened Common
  import opened Records

  /** The three fields of a request row that decide visibility. */
  datatype Ownership = Ownership(createdBy: int, ownerId: int, collaborators: Option<string>)

  function OwnershipOf(r: ImageRequest): Ownership {
    Ownership(r.createdBy, r.ownerId, r.collaborators)
  }

  /** A collaborator name as stored after normalisation. */
  predicate CleanName(n: string) {
    n != "" && Trimmed(n) && ',' !in n
  }

  /** `_normalize_collaborators`: split a comma-separated list, strip each
      piece and drop the empty ones. */
  function NormalizeCollaborators(c: Option<string>): (names: set<string>)
    ensures c == None || c == Some("") ==> names == {}
    ensures forall n :: n in names ==> CleanName(n)
  {
    if c == None || c.value == "" then {}
    else
      var parts := Split(c.value, ',');
      var names := set p | p in parts && Strip(p) != "" :: Strip(p);
      assert forall n :: n in names ==> CleanName(n) by {
        forall n | n in names ensures CleanName(n) {
          var p :| p in parts && Strip(p) != "" && Strip(p) == n;
          StripIsInfix(p);
        }
      }
      names
  }

  lemma StripIsInfix(p: string)
    ensures forall ch :: ch in Strip(p) ==> ch in p
  {
    var a, b :| 0 <= a <= b <= |p| && Strip(p) == p[a..b];
  }

  /** A name is a collaborator iff some comma-separated piece of the list
      strips to it. */
  lemma CollaboratorMembership(c: string, n: string)
    requires c != ""
    ensures n in NormalizeCollaborators(Some(c)) <==>
            n != "" && exists i :: 0 <= i < |Split(c, ',')| && Strip(Split(c, ',')[i]) == n
  {
    var parts := Split(c, ',');
    if n in NormalizeCollaborators(Some(c)) {
      var p :| p in parts && Strip(p) == n;
      var i :| 0 <= i < |parts| && parts[i] == p;
    }
  }

  /** Storing a list of clean names joined by commas and normalising it
      again yields exactly those names. */
  lemma CollaboratorsRoundTrip(names: seq<string>)
    requires |names| >= 1
    requires forall i :: 0 <= i < |names| ==> CleanName(names[i])
    ensures NormalizeCollaborators(Some(Join(names, ','))) == set i | 0 <= i < |names| :: names[i]
  {
    var c := Join(names, ',');
    SplitJoin(names, ',');
    assert |c| >= |names[0]| > 0;
    forall n ensures n in NormalizeCollaborators(Some(c)) <==> n in set i | 0 <= i < |names| :: names[i] {
      CollaboratorMembership(c, n);
      if n in set i | 0 <= i < |names| :: names[i] {
        var i :| 0 <= i < |names| && names[i] == n;
        StripOfTrimmed(n);
      }
      if n in NormalizeCollaborators(Some(c)) {
        var i :| 0 <= i < |names| && Strip(names[i]) == n;
        StripOfTrimmed(names[i]);
      }
    }
  }

  /** `can_view_request` */
  function CanViewRequest(user: User, o: Ownership): bool {
    if IsStaff(user.role) then true
    else if user.role != Developer then false
    else if user.id == o.createdBy || user.id == o.ownerId then true
    else user.username in NormalizeCollaborators(o.collaborators)
  }

  /** `can_edit_request`: unlike viewing, collaborators are not admitted. */
  function CanEditRequest(user: User, o: Ownership): bool {
    if IsStaff(user.role) then true
    else if user.role != Developer then false
    else user.id == o.createdBy || user.id == o.ownerId
  }

  /** `can_manage_deployment` */
  function CanManageDeployment(user: User, stoppedByOperator: bool, ownerId: int): bool {
    if IsStaff(user.role) then true
    else if user.role != Developer then false
    else if user.id != ownerId then false
    else !stoppedByOperator
  }

  /** Admins and operators pass all three predicates whatever the row. */
  lemma StaffAlwaysAllowed(user: User, o: Ownership, stopped: bool, ownerId: int)
    requires user.role in {Admin, Operator}
    ensures CanViewRequest(user, o) && CanEditRequest(user, o) && CanManageDeployment(user, stopped, ownerId)
  {
  }

  /** A role other than admin, operator and developer fails all three. */
  lemma OtherRolesDenied(user: User, o: Ownership, stopped: bool, ownerId: int)
    requires user.role.Other?
    ensures !CanViewRequest(user, o) && !CanEditRequest(user, o) && !CanManageDeployment(user, stopped, ownerId)
  {
  }

  /** The developer visibility rule, stated on the raw comma-separated list. */
  lemma DeveloperView(user: User, o: Ownership)
    requires user.role == Developer
    ensures CanViewRequest(user, o) <==>
            user.id == o.createdBy || user.id == o.ownerId ||
            (o.collaborators.Some? && o.collaborators.value != "" && user.username != "" &&
             exists i :: 0 <= i < |Split(o.collaborators.value, ',')| &&
                         Strip(Split(o.collaborators.value, ',')[i]) == user.username)
  {
    if o.collaborators.Some? && o.collaborators.value != "" {
      CollaboratorMembership(o.collaborators.value, user.username);
    }
  }

  /** Whoever may edit a request may also view it. */
  lemma EditImpliesView(user: User, o: Ownership)
    ensures CanEditRequest(user, o) ==> CanViewRequest(user, o)
  {
  }

  /** A developer who is only a collaborator can view but not edit. */
  lemma CollaboratorViewsButCannotEdit(user: User, o: Ownership)
    requires user.role == Developer
    requires user.id != o.createdBy && user.id != o.ownerId
    requires user.username in NormalizeCollaborators(o.collaborators)
    ensures CanViewRequest(user, o) && !CanEditRequest(user, o)
  {
  }

  /** A developer with no tie to the request can neither view nor edit it. */
  lemma StrangerDenied(user: User, o: Ownership)
    requires user.role == Developer
    requires user.id != o.createdBy && user.id != o.ownerId
    requires user.username !in NormalizeCollaborators(o.collaborators)
    ensures !CanViewRequest(user, o) && !CanEditRequest(user, o)
  {
  }

  /** A developer manages a deployment iff they own it and no operator
      stopped it. */
  lemma DeveloperManage(user: User, stopped: bool, ownerId: int)
    requires user.role == Developer
    ensures CanManageDeployment(user, stopped, ownerId) <==> user.id == ownerId && !stopped
  {
  }

  /** `filter_requests_for_user`: the visible rows, in input order, each
      with its full multiplicity. */
  function FilterRequestsForUser(rows: seq<ImageRequest>, user: User): (r: seq<ImageRequest>)
    ensures forall x :: multiset(r)[x] == if CanViewRequest(user, OwnershipOf(x)) then multiset(rows)[x] else 0
    ensures IsSubsequence(r, rows)
  {
    var keep := (x: ImageRequest) => CanViewRequest(user, OwnershipOf(x));
    FilterSpec(rows, keep);
    Filter(rows, keep)
  }

  /** The gate of `role_required(*roles)`. */
  datatype Gate = Pass | Forbidden

  function RoleRequired(user: User, roles: set<Role>): Gate {
    if user.role in roles then Pass else Forbidden
  }

  /** The two gates the routes use: the staff gate passes exactly the staff,
      who may then view and edit every request and manage every deployment;
      the developer gate passes exactly developers, never staff. */
  lemma RoleGates(user: User, o: Ownership, stopped: bool, ownerId: int)
    ensures RoleRequired(user, {Operator, Admin}) == Pass <==> IsStaff(user.role)
    ensures RoleRequired(user, {Operator, Admin}) == Pass ==>
              CanViewRequest(user, o) && CanEditRequest(user, o) && CanManageDeployment(user, stopped, ownerId)
    ensures RoleRequired(user, {Developer}) == Pass <==> user.role == Developer
    ensures RoleRequired(user, {Developer}) == Pass ==> RoleRequired(user, {Operator, Admin}) == Forbidden
  {
    if IsStaff(user.role) {
      StaffAlwaysAllowed(user, o, stopped, ownerId);
    }
  }
}
