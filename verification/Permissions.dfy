// The permission schema: what administrators, owners, managers and authors may
// do, over every set of relationship tuples.

module Permissions {
  import opened Relations

  // ---------------------------------------------------------------- the schema

  function PlatformSchema(name: Name): Definition {
    match name
    case PlatformAdminRole | PlatformAuthorRole | PlatformUserRole => Relation
    case IsAdmin => Permission(Ref(PlatformAdminRole))
    case IsAuthor => Permission(Union(Ref(PlatformAuthorRole), Ref(PlatformAdminRole)))
    case IsUser => Permission(Union(Union(Ref(PlatformUserRole), Ref(PlatformAuthorRole)), Ref(PlatformAdminRole)))
    case _ => Undefined
  }

  function PostSchema(name: Name): Definition {
    match name
    case Policy | Author | Collaborator => Relation
    case PlatformAdmin => Permission(Arrow(Policy, IsAdmin))
    case PlatformAuthor => Permission(Arrow(Policy, IsAuthor))
    case AuthorManage => Permission(Union(Ref(PlatformAdmin), Both(Ref(Author), Ref(PlatformAuthor))))
    case CollaboratorEdit => Permission(Ref(Collaborator))
    case Edit => Permission(Union(Ref(AuthorManage), Ref(CollaboratorEdit)))
    case View => Permission(Ref(Edit))
    case ViewArchived => Permission(Ref(PlatformAuthor))
    case EditArchived => Permission(Ref(PlatformAdmin))
    case Delete | Publish | Manage | ManageParticipants | ManageShareLinks => Permission(Ref(AuthorManage))
    case _ => Undefined
  }

  // Artists and labels.
  function OwnedSchema(name: Name): Definition {
    match name
    case Policy | Owner | Manager | Parent => Relation
    case PlatformAdmin => Permission(Arrow(Policy, IsAdmin))
    case OwnerManage => Permission(Union(Ref(PlatformAdmin), Ref(Owner)))
    case ManagerManage => Permission(Union(Union(Ref(OwnerManage), Ref(Manager)), Arrow(Parent, Manage)))
    case Edit | Manage => Permission(Ref(ManagerManage))
    case View => Permission(Ref(Edit))
    case Delete | Publish | ManageParticipants | ManageShareLinks => Permission(Ref(OwnerManage))
    case _ => Undefined
  }

  function SeriesSchema(name: Name): Definition {
    match name
    case Policy | Manager => Relation
    case PlatformAdmin => Permission(Arrow(Policy, IsAdmin))
    case ManagerManage => Permission(Union(Ref(PlatformAdmin), Ref(Manager)))
    case Edit | Publish | Manage => Permission(Ref(ManagerManage))
    case View => Permission(Ref(Edit))
    case Delete | ManageParticipants => Permission(Ref(PlatformAdmin))
    case _ => Undefined
  }

  function MapPlaceSchema(name: Name): Definition {
    match name
    case Policy => Relation
    case PlatformAdmin => Permission(Arrow(Policy, IsAdmin))
    case PlatformAuthor => Permission(Arrow(Policy, IsAuthor))
    case View | Edit | Manage => Permission(Union(Ref(PlatformAdmin), Ref(PlatformAuthor)))
    case Delete => Permission(Ref(PlatformAdmin))
    case _ => Undefined
  }

  predicate HasPublish(kind: Kind) {
    || kind.Page? || kind.Work? || kind.Release? || kind.ProgramEvent? || kind.ProgramEventSeries? || kind.Form?
    || kind.TermsHistory? || kind.PrivacyHistory?
  }

  predicate HasArchive(kind: Kind) {
    kind.Work? || kind.ProgramEvent? || kind.TermsHistory? || kind.PrivacyHistory?
  }

  predicate HasShareLinks(kind: Kind) {
    kind.Work? || kind.Release? || kind.Form? || kind.TermsHistory? || kind.PrivacyHistory?
  }

  // The definitions only administrators manage.
  function AdminSchema(kind: Kind, name: Name): Definition {
    match name
    case Policy => Relation
    case PlatformAdmin => Permission(Arrow(Policy, IsAdmin))
    case View | Edit | Delete | Manage => Permission(Ref(PlatformAdmin))
    case Publish => if HasPublish(kind) then Permission(Ref(PlatformAdmin)) else Undefined
    case ViewArchived => if HasArchive(kind) then Permission(Arrow(Policy, IsAuthor)) else Undefined
    case EditArchived => if HasArchive(kind) then Permission(Ref(PlatformAdmin)) else Undefined
    case ManageShareLinks =>
      if kind == Page then Permission(Ref(PlatformAdmin))
      else if HasShareLinks(kind) then Permission(Ref(Manage)) else Undefined
    case _ => Undefined
  }

  // The definitions without any relation or permission.
  predicate IsBare(kind: Kind) {
    || kind.AccountIdentity? || kind.EmailEventMapping? || kind.MailAdapter? || kind.EmailSuppression?
    || kind.TranslationSettings? || kind.TranslationProvider?
  }

  predicate IsOwned(kind: Kind) {
    kind == Artist || kind == Label
  }

  function Catalogue(kind: Kind, name: Name): Definition {
    if IsBare(kind) then Undefined
    else if kind == Role then (if name == RoleMember then Relation else Undefined)
    else if kind == Platform then PlatformSchema(name)
    else if kind == Post then PostSchema(name)
    else if IsOwned(kind) then OwnedSchema(name)
    else if kind == Series then SeriesSchema(name)
    else if kind == MapPlace then MapPlaceSchema(name)
    else AdminSchema(kind, name)
  }

  // The subjects a relation may be written with.
  predicate Allows(kind: Kind, relation: Name, subject: Subject) {
    && Catalogue(kind, relation).Relation?
    && match relation
       case RoleMember =>
         if subject.Direct? then subject.obj.kind == AccountIdentity
         else subject.obj.kind == Role && subject.relation == RoleMember
       case PlatformAdminRole | PlatformAuthorRole | PlatformUserRole =>
         subject.Userset? && subject.obj.kind == Role && subject.relation == RoleMember
       case Policy => subject.Direct? && subject.obj.kind == Platform
       case Parent => subject.Direct? && subject.obj.kind == kind
       case _ => subject.Direct? && subject.obj.kind == AccountIdentity
  }

  predicate WellTyped(tuples: set<Tuple>) {
    forall t :: t in tuples ==> Allows(t.resource.kind, t.relation, t.subject)
  }

  predicate IsAdminManaged(kind: Kind) {
    !IsBare(kind) && !IsOwned(kind) && !kind.Role? && !kind.Platform? && !kind.Post? && !kind.Series? && !kind.MapPlace?
  }

  // The definitions that have each relation.
  predicate Declares(kind: Kind, relation: Name) {
    match relation
    case RoleMember => kind == Role
    case PlatformAdminRole | PlatformAuthorRole | PlatformUserRole => kind == Platform
    case Policy =>
      && kind != Role && kind != Platform && kind != AccountIdentity && kind != EmailEventMapping && kind != MailAdapter
      && kind != EmailSuppression && kind != TranslationSettings && kind != TranslationProvider
    case Author | Collaborator => kind == Post
    case Owner | Parent => kind == Artist || kind == Label
    case Manager => kind == Artist || kind == Label || kind == Series
    case _ => false
  }

  // And what they are written with: members with accounts or the members of a
  // role, the roles of a platform with such members, a policy with a platform,
  // a parent with the same kind, the rest with accounts.
  predicate WrittenWith(kind: Kind, relation: Name, subject: Subject) {
    var members := subject.Userset? && subject.obj.kind == Role && subject.relation == RoleMember;
    if relation == RoleMember then members || (subject.Direct? && subject.obj.kind == AccountIdentity)
    else if relation.PlatformAdminRole? || relation.PlatformAuthorRole? || relation.PlatformUserRole? then members
    else subject.Direct? &&
         subject.obj.kind == if relation == Policy then Platform else if relation == Parent then kind else AccountIdentity
  }

  lemma PolicyAlone(kind: Kind, relation: Name)
    ensures AdminSchema(kind, relation).Relation? <==> relation == Policy
  {
  }

  lemma DeclaresPolicyAlone(kind: Kind, relation: Name)
    requires IsAdminManaged(kind)
    ensures Declares(kind, relation) <==> relation == Policy
  {
  }

  lemma AdminRelations(kind: Kind, relation: Name)
    requires IsAdminManaged(kind)
    ensures Catalogue(kind, relation).Relation? <==> Declares(kind, relation)
  {
    PolicyAlone(kind, relation);
    DeclaresPolicyAlone(kind, relation);
  }

  lemma OwnedRelations(kind: Kind, relation: Name)
    requires IsOwned(kind)
    ensures Catalogue(kind, relation).Relation? <==> Declares(kind, relation)
  {
  }

  lemma OtherRelations(kind: Kind, relation: Name)
    requires !IsAdminManaged(kind) && !IsOwned(kind)
    ensures Catalogue(kind, relation).Relation? <==> Declares(kind, relation)
  {
    if kind.Post? || kind.Series? || kind.MapPlace? {
      ContentRelations(kind, relation);
    }
  }

  lemma ContentRelations(kind: Kind, relation: Name)
    requires kind.Post? || kind.Series? || kind.MapPlace?
    ensures Catalogue(kind, relation).Relation? <==> Declares(kind, relation)
  {
  }

  lemma RelationsExactly(kind: Kind, relation: Name)
    ensures Catalogue(kind, relation).Relation? <==> Declares(kind, relation)
  {
    if IsAdminManaged(kind) {
      AdminRelations(kind, relation);
    } else if IsOwned(kind) {
      OwnedRelations(kind, relation);
    } else {
      OtherRelations(kind, relation);
    }
  }

  lemma SubjectsExactly(kind: Kind, relation: Name, subject: Subject)
    ensures Allows(kind, relation, subject) <==> Declares(kind, relation) && WrittenWith(kind, relation, subject)
  {
    RelationsExactly(kind, relation);
  }

  // ---------------------------------------------------------------- meaning

  ghost function Meant(tuples: set<Tuple>, account: Object): Meaning {
    Derived(Catalogue, tuples, account)
  }

  ghost predicate Holds(tuples: set<Tuple>, account: Object, obj: Object, name: Name) {
    Derivable(Catalogue, tuples, account, obj, name)
  }

  // A name holds exactly when its line of the schema does.
  lemma Line(tuples: set<Tuple>, account: Object, obj: Object, name: Name, line: Definition)
    requires Catalogue(obj.kind, name) == line
    ensures Holds(tuples, account, obj, name) <==> Reads(tuples, account, Meant(tuples, account), line, obj, name)
  {
    FixedPoint(Catalogue, tuples, account, obj, name);
  }

  // ---------------------------------------------------------------- what single names mean

  // A permission that is another name for one permission.
  lemma Renamed(tuples: set<Tuple>, account: Object, obj: Object, name: Name, to: Name)
    requires Catalogue(obj.kind, name) == Permission(Ref(to))
    ensures Holds(tuples, account, obj, name) <==> Holds(tuples, account, obj, to)
  {
    Line(tuples, account, obj, name, Permission(Ref(to)));
  }

  lemma EitherOf(tuples: set<Tuple>, account: Object, obj: Object, name: Name, left: Name, right: Name)
    requires Catalogue(obj.kind, name) == Permission(Union(Ref(left), Ref(right)))
    ensures Holds(tuples, account, obj, name) <==> Holds(tuples, account, obj, left) || Holds(tuples, account, obj, right)
  {
    var m := Meant(tuples, account);
    Line(tuples, account, obj, name, Permission(Union(Ref(left), Ref(right))));
    assert Eval(tuples, m, Ref(left), obj) == m(obj, left) && Eval(tuples, m, Ref(right), obj) == m(obj, right);
  }

  lemma Through(tuples: set<Tuple>, account: Object, obj: Object, name: Name, relation: Name, permission: Name)
    requires Catalogue(obj.kind, name) == Permission(Arrow(relation, permission))
    ensures Holds(tuples, account, obj, name) <==>
            exists o :: Tuple(obj, relation, Direct(o)) in tuples && Holds(tuples, account, o, permission)
  {
    Line(tuples, account, obj, name, Permission(Arrow(relation, permission)));
    forall o ensures Meant(tuples, account)(o, permission) == Holds(tuples, account, o, permission) {}
  }

  lemma TypedTuple(tuples: set<Tuple>, resource: Object, relation: Name, subject: Subject)
    requires WellTyped(tuples) && Tuple(resource, relation, subject) in tuples
    ensures Allows(resource.kind, relation, subject)
  {
    var t := Tuple(resource, relation, subject);
    assert Allows(t.resource.kind, t.relation, t.subject);
  }

  // Relations that only accounts are written to.
  lemma AccountRelation(tuples: set<Tuple>, account: Object, obj: Object, name: Name)
    requires WellTyped(tuples) && Catalogue(obj.kind, name) == Relation
    requires name in {Owner, Manager, Author, Collaborator}
    ensures Holds(tuples, account, obj, name) <==> Tuple(obj, name, Direct(account)) in tuples
  {
    Line(tuples, account, obj, name, Relation);
    forall o, r ensures Tuple(obj, name, Userset(o, r)) !in tuples {
      if Tuple(obj, name, Userset(o, r)) in tuples {
        TypedTuple(tuples, obj, name, Userset(o, r));
      }
    }
  }

  // ---------------------------------------------------------------- roles

  ghost predicate RoleChain(tuples: set<Tuple>, path: seq<Object>) {
    path != [] &&
    forall i :: 0 <= i < |path| - 1 ==> Tuple(path[i], RoleMember, Userset(path[i + 1], RoleMember)) in tuples
  }

  ghost predicate MemberThrough(tuples: set<Tuple>, account: Object, role: Object, path: seq<Object>) {
    && RoleChain(tuples, path) && path[0] == role
    && Tuple(path[|path| - 1], RoleMember, Direct(account)) in tuples
  }

  ghost predicate IsMember(tuples: set<Tuple>, account: Object, role: Object) {
    exists path :: MemberThrough(tuples, account, role, path)
  }

  lemma {:induction false} MemberThroughHolds(tuples: set<Tuple>, account: Object, role: Object, path: seq<Object>)
    requires WellTyped(tuples) && role.kind == Role && MemberThrough(tuples, account, role, path)
    ensures Holds(tuples, account, role, RoleMember)
    decreases |path|
  {
    Line(tuples, account, role, RoleMember, Relation);
    if |path| > 1 {
      TypedTuple(tuples, role, RoleMember, Userset(path[1], RoleMember));
      assert forall i :: 0 <= i < |path| - 1 ==> path[1..][i] == path[i + 1];
      MemberThroughHolds(tuples, account, path[1], path[1..]);
      assert Meant(tuples, account)(path[1], RoleMember);
    }
  }

  lemma ChainFrom(tuples: set<Tuple>, role: Object, rest: seq<Object>)
    requires RoleChain(tuples, rest) && Tuple(role, RoleMember, Userset(rest[0], RoleMember)) in tuples
    ensures RoleChain(tuples, [role] + rest) && ([role] + rest)[|rest|] == rest[|rest| - 1]
  {
    assert forall i :: 0 <= i < |rest| ==> ([role] + rest)[i + 1] == rest[i];
  }

  lemma LongerChain(tuples: set<Tuple>, account: Object, role: Object, o: Object)
    requires Tuple(role, RoleMember, Userset(o, RoleMember)) in tuples && IsMember(tuples, account, o)
    ensures IsMember(tuples, account, role)
  {
    var rest :| MemberThrough(tuples, account, o, rest);
    ChainFrom(tuples, role, rest);
    assert MemberThrough(tuples, account, role, [role] + rest);
  }

  lemma MembershipIsClosed(tuples: set<Tuple>, account: Object, m: Meaning, role: Object)
    requires WellTyped(tuples) && role.kind == Role
    requires forall o, r :: m(o, r) && o.kind == Role && r == RoleMember ==> IsMember(tuples, account, o)
    requires Reads(tuples, account, m, Relation, role, RoleMember)
    ensures IsMember(tuples, account, role)
  {
    if Tuple(role, RoleMember, Direct(account)) in tuples {
      assert MemberThrough(tuples, account, role, [role]);
    } else {
      var o, r :| Tuple(role, RoleMember, Userset(o, r)) in tuples && m(o, r);
      TypedTuple(tuples, role, RoleMember, Userset(o, r));
      LongerChain(tuples, account, role, o);
    }
  }

  // Membership is a direct tuple at the end of a chain of role links, however
  // the roles are linked.
  lemma MemberIffRoleChain(tuples: set<Tuple>, account: Object, role: Object)
    requires WellTyped(tuples) && role.kind == Role
    ensures Holds(tuples, account, role, RoleMember) <==> IsMember(tuples, account, role)
  {
    var m: Meaning := (o: Object, r: Name) => o.kind == Role && r == RoleMember ==> IsMember(tuples, account, o);
    forall o: Object, r: Name | Reads(tuples, account, m, Catalogue(o.kind, r), o, r) ensures m(o, r) {
      if o.kind == Role && r == RoleMember {
        MembershipIsClosed(tuples, account, m, o);
      }
    }
    LeastFixedPoint(Catalogue, tuples, account, m);
    assert Holds(tuples, account, role, RoleMember) == Meant(tuples, account)(role, RoleMember);
    if path :| MemberThrough(tuples, account, role, path) {
      MemberThroughHolds(tuples, account, role, path);
    }
  }

  // ---------------------------------------------------------------- roles of a platform

  // Some role tied to the platform in this way has the account as a member.
  ghost predicate InRole(tuples: set<Tuple>, account: Object, p: Object, relation: Name) {
    exists role :: Tuple(p, relation, Userset(role, RoleMember)) in tuples && IsMember(tuples, account, role)
  }

  lemma RoleRelation(tuples: set<Tuple>, account: Object, p: Object, relation: Name)
    requires WellTyped(tuples) && p.kind == Platform
    requires relation in {PlatformAdminRole, PlatformAuthorRole, PlatformUserRole}
    ensures Holds(tuples, account, p, relation) <==> InRole(tuples, account, p, relation)
  {
    Line(tuples, account, p, relation, Relation);
    if Tuple(p, relation, Direct(account)) in tuples {
      TypedTuple(tuples, p, relation, Direct(account));
    }
    forall role, r | Tuple(p, relation, Userset(role, r)) in tuples
      ensures r == RoleMember && (Meant(tuples, account)(role, r) <==> IsMember(tuples, account, role)) {
      TypedTuple(tuples, p, relation, Userset(role, r));
      MemberIffRoleChain(tuples, account, role);
    }
  }

  // Administrators are the members of the platform's admin roles; authors those
  // of its author and admin roles; users those of any of its three.
  lemma PlatformRolesExactly(tuples: set<Tuple>, account: Object, p: Object)
    requires WellTyped(tuples) && p.kind == Platform
    ensures Holds(tuples, account, p, IsAdmin) <==> InRole(tuples, account, p, PlatformAdminRole)
    ensures Holds(tuples, account, p, IsAuthor) <==>
            InRole(tuples, account, p, PlatformAuthorRole) || InRole(tuples, account, p, PlatformAdminRole)
    ensures Holds(tuples, account, p, IsUser) <==>
            || InRole(tuples, account, p, PlatformUserRole) || InRole(tuples, account, p, PlatformAuthorRole)
            || InRole(tuples, account, p, PlatformAdminRole)
  {
    RoleRelation(tuples, account, p, PlatformAdminRole);
    RoleRelation(tuples, account, p, PlatformAuthorRole);
    RoleRelation(tuples, account, p, PlatformUserRole);
    Renamed(tuples, account, p, IsAdmin, PlatformAdminRole);
    EitherOf(tuples, account, p, IsAuthor, PlatformAuthorRole, PlatformAdminRole);
    var m, others := Meant(tuples, account), Union(Ref(PlatformUserRole), Ref(PlatformAuthorRole));
    Line(tuples, account, p, IsUser, Permission(Union(others, Ref(PlatformAdminRole))));
    assert Eval(tuples, m, Ref(PlatformAdminRole), p) == m(p, PlatformAdminRole);
    assert Eval(tuples, m, Ref(PlatformUserRole), p) == m(p, PlatformUserRole);
    assert Eval(tuples, m, Ref(PlatformAuthorRole), p) == m(p, PlatformAuthorRole);
    assert Eval(tuples, m, others, p) <==> m(p, PlatformUserRole) || m(p, PlatformAuthorRole);
  }

  // The resource is under a platform of which the account is an administrator.
  ghost predicate AdminOf(tuples: set<Tuple>, account: Object, obj: Object) {
    exists p :: Tuple(obj, Policy, Direct(p)) in tuples && InRole(tuples, account, p, PlatformAdminRole)
  }

  // The same for an author.
  ghost predicate AuthorOf(tuples: set<Tuple>, account: Object, obj: Object) {
    exists p :: Tuple(obj, Policy, Direct(p)) in tuples &&
                (InRole(tuples, account, p, PlatformAuthorRole) || InRole(tuples, account, p, PlatformAdminRole))
  }

  lemma ThroughPolicyExactly(tuples: set<Tuple>, account: Object, obj: Object, name: Name, of: Name)
    requires WellTyped(tuples) && of in {IsAdmin, IsAuthor}
    requires Catalogue(obj.kind, name) == Permission(Arrow(Policy, of))
    ensures Holds(tuples, account, obj, name) <==>
            if of == IsAdmin then AdminOf(tuples, account, obj) else AuthorOf(tuples, account, obj)
  {
    Through(tuples, account, obj, name, Policy, of);
    forall p | Tuple(obj, Policy, Direct(p)) in tuples
      ensures Holds(tuples, account, p, of) <==>
              InRole(tuples, account, p, PlatformAdminRole) ||
              (of == IsAuthor && InRole(tuples, account, p, PlatformAuthorRole)) {
      TypedTuple(tuples, obj, Policy, Direct(p));
      PlatformRolesExactly(tuples, account, p);
    }
  }

  lemma PlatformAdminMeaning(tuples: set<Tuple>, account: Object, obj: Object)
    requires WellTyped(tuples) && Catalogue(obj.kind, PlatformAdmin) == Permission(Arrow(Policy, IsAdmin))
    ensures Holds(tuples, account, obj, PlatformAdmin) <==> AdminOf(tuples, account, obj)
  {
    ThroughPolicyExactly(tuples, account, obj, PlatformAdmin, IsAdmin);
  }

  // ---------------------------------------------------------------- artists and labels

  ghost predicate Grants(tuples: set<Tuple>, account: Object, obj: Object) {
    || AdminOf(tuples, account, obj)
    || Tuple(obj, Owner, Direct(account)) in tuples
    || Tuple(obj, Manager, Direct(account)) in tuples
  }

  ghost predicate ParentChain(tuples: set<Tuple>, path: seq<Object>) {
    path != [] && forall i :: 0 <= i < |path| - 1 ==> Tuple(path[i], Parent, Direct(path[i + 1])) in tuples
  }

  ghost predicate GrantedThrough(tuples: set<Tuple>, account: Object, obj: Object, path: seq<Object>) {
    ParentChain(tuples, path) && path[0] == obj && Grants(tuples, account, path[|path| - 1])
  }

  ghost predicate SomeAncestorGrants(tuples: set<Tuple>, account: Object, obj: Object) {
    exists path :: GrantedThrough(tuples, account, obj, path)
  }

  // delete, publish and the sharing permissions: administrator or owner.
  lemma OwnerManageExact(tuples: set<Tuple>, account: Object, obj: Object, name: Name)
    requires WellTyped(tuples) && IsOwned(obj.kind)
    requires name in {OwnerManage, Delete, Publish, ManageParticipants, ManageShareLinks}
    ensures Holds(tuples, account, obj, name) <==>
            AdminOf(tuples, account, obj) || Tuple(obj, Owner, Direct(account)) in tuples
  {
    OwnerManageRefers(tuples, account, obj, name);
    PlatformAdminMeaning(tuples, account, obj);
    AccountRelation(tuples, account, obj, Owner);
  }

  lemma OwnerManageRefers(tuples: set<Tuple>, account: Object, obj: Object, name: Name)
    requires IsOwned(obj.kind) && name in {OwnerManage, Delete, Publish, ManageParticipants, ManageShareLinks}
    ensures Holds(tuples, account, obj, name) <==>
            Holds(tuples, account, obj, PlatformAdmin) || Holds(tuples, account, obj, Owner)
  {
    if name != OwnerManage {
      Renamed(tuples, account, obj, name, OwnerManage);
    }
    EitherOf(tuples, account, obj, OwnerManage, PlatformAdmin, Owner);
  }

  const MANAGER_LINE := Union(Union(Ref(OwnerManage), Ref(Manager)), Arrow(Parent, Manage))

  lemma ManagerLineReads(tuples: set<Tuple>, account: Object, m: Meaning, obj: Object)
    ensures Reads(tuples, account, m, Permission(MANAGER_LINE), obj, ManagerManage) <==>
            || m(obj, OwnerManage) || m(obj, Manager)
            || exists p :: Tuple(obj, Parent, Direct(p)) in tuples && m(p, Manage)
  {
    assert forall name :: Eval(tuples, m, Ref(name), obj) == m(obj, name);
    var either := Union(Ref(OwnerManage), Ref(Manager));
    assert Eval(tuples, m, either, obj) <==> m(obj, OwnerManage) || m(obj, Manager);
    assert Eval(tuples, m, MANAGER_LINE, obj) <==>
           Eval(tuples, m, either, obj) || Eval(tuples, m, Arrow(Parent, Manage), obj);
  }

  // One level of manage: granted here, or by a parent.
  lemma ManageStep(tuples: set<Tuple>, account: Object, obj: Object)
    requires WellTyped(tuples) && IsOwned(obj.kind)
    ensures Holds(tuples, account, obj, Manage) <==>
            || Grants(tuples, account, obj)
            || exists p :: Tuple(obj, Parent, Direct(p)) in tuples && Holds(tuples, account, p, Manage)
  {
    Renamed(tuples, account, obj, Manage, ManagerManage);
    Line(tuples, account, obj, ManagerManage, Permission(MANAGER_LINE));
    ManagerLineReads(tuples, account, Meant(tuples, account), obj);
    forall p ensures Meant(tuples, account)(p, Manage) <==> Holds(tuples, account, p, Manage) {}
    OwnerManageExact(tuples, account, obj, OwnerManage);
    AccountRelation(tuples, account, obj, Manager);
  }

  lemma ManageFromParent(tuples: set<Tuple>, account: Object, obj: Object, p: Object)
    requires WellTyped(tuples) && IsOwned(obj.kind)
    requires Tuple(obj, Parent, Direct(p)) in tuples && Holds(tuples, account, p, Manage)
    ensures Holds(tuples, account, obj, Manage)
  {
    ManageStep(tuples, account, obj);
  }

  lemma {:induction false} ManageReachesDown(tuples: set<Tuple>, account: Object, path: seq<Object>)
    requires WellTyped(tuples) && ParentChain(tuples, path) && IsOwned(path[0].kind)
    requires IsOwned(path[|path| - 1].kind) ==> Holds(tuples, account, path[|path| - 1], Manage)
    ensures Holds(tuples, account, path[0], Manage)
    decreases |path|
  {
    if |path| > 1 {
      TypedTuple(tuples, path[0], Parent, Direct(path[1]));
      assert forall i :: 0 <= i < |path| - 1 ==> path[1..][i] == path[i + 1];
      ManageReachesDown(tuples, account, path[1..]);
      ManageFromParent(tuples, account, path[0], path[1]);
    }
  }

  lemma GrantIsManage(tuples: set<Tuple>, account: Object, obj: Object)
    requires WellTyped(tuples) && IsOwned(obj.kind) && Grants(tuples, account, obj)
    ensures Holds(tuples, account, obj, Manage)
  {
    ManageStep(tuples, account, obj);
  }

  lemma GrantReachesDown(tuples: set<Tuple>, account: Object, obj: Object, path: seq<Object>)
    requires WellTyped(tuples) && IsOwned(obj.kind) && GrantedThrough(tuples, account, obj, path)
    ensures Holds(tuples, account, obj, Manage)
  {
    if IsOwned(path[|path| - 1].kind) {
      GrantIsManage(tuples, account, path[|path| - 1]);
    }
    ManageReachesDown(tuples, account, path);
  }

  lemma ParentsFrom(tuples: set<Tuple>, obj: Object, rest: seq<Object>)
    requires ParentChain(tuples, rest) && Tuple(obj, Parent, Direct(rest[0])) in tuples
    ensures ParentChain(tuples, [obj] + rest) && ([obj] + rest)[|rest|] == rest[|rest| - 1]
  {
    assert forall i :: 0 <= i < |rest| ==> ([obj] + rest)[i + 1] == rest[i];
  }

  lemma OneUp(tuples: set<Tuple>, account: Object, obj: Object, p: Object)
    requires Tuple(obj, Parent, Direct(p)) in tuples && SomeAncestorGrants(tuples, account, p)
    ensures SomeAncestorGrants(tuples, account, obj)
  {
    var rest :| GrantedThrough(tuples, account, p, rest);
    ParentsFrom(tuples, obj, rest);
    assert GrantedThrough(tuples, account, obj, [obj] + rest);
  }

  // What is derived, with manage only where some ancestor grants it.
  ghost function FromAncestors(tuples: set<Tuple>, account: Object): Meaning {
    (o, r) => Holds(tuples, account, o, r) &&
              (IsOwned(o.kind) && (r == Manage || r == ManagerManage) ==> SomeAncestorGrants(tuples, account, o))
  }

  lemma OwnGrant(tuples: set<Tuple>, account: Object, obj: Object)
    requires WellTyped(tuples) && IsOwned(obj.kind)
    requires Holds(tuples, account, obj, OwnerManage) || Holds(tuples, account, obj, Manager)
    ensures SomeAncestorGrants(tuples, account, obj)
  {
    OwnerManageExact(tuples, account, obj, OwnerManage);
    AccountRelation(tuples, account, obj, Manager);
    assert Grants(tuples, account, obj);
    assert GrantedThrough(tuples, account, obj, [obj]);
  }

  lemma ManagerLineFromAncestors(tuples: set<Tuple>, account: Object, obj: Object)
    requires WellTyped(tuples) && IsOwned(obj.kind)
    requires Reads(tuples, account, FromAncestors(tuples, account), Permission(MANAGER_LINE), obj, ManagerManage)
    ensures SomeAncestorGrants(tuples, account, obj)
  {
    var m := FromAncestors(tuples, account);
    ManagerLineReads(tuples, account, m, obj);
    if m(obj, OwnerManage) || m(obj, Manager) {
      OwnGrant(tuples, account, obj);
    } else {
      var p :| Tuple(obj, Parent, Direct(p)) in tuples && m(p, Manage);
      TypedTuple(tuples, obj, Parent, Direct(p));
      OneUp(tuples, account, obj, p);
    }
  }

  lemma FromAncestorsIsClosed(tuples: set<Tuple>, account: Object, obj: Object, name: Name)
    requires WellTyped(tuples)
    requires Reads(tuples, account, FromAncestors(tuples, account), Catalogue(obj.kind, name), obj, name)
    ensures FromAncestors(tuples, account)(obj, name)
  {
    var m, line := FromAncestors(tuples, account), Catalogue(obj.kind, name);
    assert Below(m, Meant(tuples, account));
    ReadsGrows(tuples, tuples, account, m, Meant(tuples, account), line, obj, name);
    Line(tuples, account, obj, name, line);
    if IsOwned(obj.kind) && name == ManagerManage {
      ManagerLineFromAncestors(tuples, account, obj);
    } else if IsOwned(obj.kind) && name == Manage {
      assert m(obj, ManagerManage);
    }
  }

  // manage is exactly a grant at the object or at some ancestor, however the
  // parents are linked.
  lemma ManageIffSomeAncestorGrants(tuples: set<Tuple>, account: Object, obj: Object, name: Name)
    requires WellTyped(tuples) && IsOwned(obj.kind) && name in {ManagerManage, Manage, Edit, View}
    ensures Holds(tuples, account, obj, name) <==> SomeAncestorGrants(tuples, account, obj)
  {
    Renamed(tuples, account, obj, View, Edit);
    Renamed(tuples, account, obj, Edit, ManagerManage);
    Renamed(tuples, account, obj, Manage, ManagerManage);
    forall o: Object, r: Name | Reads(tuples, account, FromAncestors(tuples, account), Catalogue(o.kind, r), o, r)
      ensures FromAncestors(tuples, account)(o, r) {
      FromAncestorsIsClosed(tuples, account, o, r);
    }
    LeastFixedPoint(Catalogue, tuples, account, FromAncestors(tuples, account));
    assert Holds(tuples, account, obj, Manage) == Meant(tuples, account)(obj, Manage);
    if path :| GrantedThrough(tuples, account, obj, path) {
      GrantReachesDown(tuples, account, obj, path);
    }
  }

  // ---------------------------------------------------------------- deletion is not inherited

  predicate ParentFree(kind: Kind, name: Name) {
    || kind == Role || kind == Platform
    || (IsOwned(kind) && name in {Policy, Owner, Manager, PlatformAdmin, OwnerManage, Delete, Publish,
                                  ManageParticipants, ManageShareLinks})
  }

  ghost predicate SameBesidesParents(tuples: set<Tuple>, other: set<Tuple>) {
    forall t: Tuple :: t.relation != Parent ==> (t in tuples <==> t in other)
  }

  ghost predicate AgreeBesidesParents(m: Meaning, k: Meaning) {
    forall o: Object, r: Name :: ParentFree(o.kind, r) && m(o, r) ==> k(o, r)
  }

  // The lines of these names refer only to such names again.
  lemma ReadsIgnoresParents(tuples: set<Tuple>, other: set<Tuple>, account: Object, m: Meaning, k: Meaning, obj: Object, name: Name)
    requires WellTyped(tuples) && SameBesidesParents(tuples, other) && ParentFree(obj.kind, name)
    requires AgreeBesidesParents(m, k)
    requires Reads(tuples, account, m, Catalogue(obj.kind, name), obj, name)
    ensures Reads(other, account, k, Catalogue(obj.kind, name), obj, name)
  {
    var line := Catalogue(obj.kind, name);
    if line.Permission? {
      RefersParentFree(obj.kind, name);
      EvalIgnoresParents(tuples, other, m, k, line.body, obj);
    } else if o, r :| Tuple(obj, name, Userset(o, r)) in tuples && m(o, r) {
      TypedTuple(tuples, obj, name, Userset(o, r));
    }
  }

  // Names of the same object must be of this kind; arrows go to a platform.
  predicate Refers(kind: Kind, e: Expr) {
    match e
    case Ref(name) => ParentFree(kind, name)
    case Union(left, right) => Refers(kind, left) && Refers(kind, right)
    case Both(left, right) => Refers(kind, left) && Refers(kind, right)
    case Arrow(relation, _) => relation == Policy
  }

  lemma RefersParentFree(kind: Kind, name: Name)
    requires ParentFree(kind, name) && Catalogue(kind, name).Permission?
    ensures Refers(kind, Catalogue(kind, name).body)
  {
    if kind == Platform {
      assert Refers(kind, Ref(PlatformAdminRole)) && Refers(kind, Ref(PlatformAuthorRole)) && Refers(kind, Ref(PlatformUserRole));
      assert Refers(kind, Union(Ref(PlatformUserRole), Ref(PlatformAuthorRole)));
    } else {
      assert Refers(kind, Ref(PlatformAdmin)) && Refers(kind, Ref(Owner)) && Refers(kind, Ref(OwnerManage));
    }
  }

  lemma {:induction false} EvalIgnoresParents(tuples: set<Tuple>, other: set<Tuple>, m: Meaning, k: Meaning, e: Expr, obj: Object)
    requires WellTyped(tuples) && SameBesidesParents(tuples, other) && AgreeBesidesParents(m, k)
    requires Refers(obj.kind, e) && Eval(tuples, m, e, obj)
    ensures Eval(other, k, e, obj)
  {
    match e {
      case Ref(_) =>
      case Union(left, right) =>
        if Eval(tuples, m, left, obj) {
          EvalIgnoresParents(tuples, other, m, k, left, obj);
        } else {
          EvalIgnoresParents(tuples, other, m, k, right, obj);
        }
      case Both(left, right) =>
        EvalIgnoresParents(tuples, other, m, k, left, obj);
        EvalIgnoresParents(tuples, other, m, k, right, obj);
      case Arrow(relation, permission) =>
        var o :| Tuple(obj, relation, Direct(o)) in tuples && m(o, permission);
        TypedTuple(tuples, obj, relation, Direct(o));
        assert Tuple(obj, relation, Direct(o)) in other && k(o, permission);
    }
  }

  lemma HoldsIgnoresParents(tuples: set<Tuple>, other: set<Tuple>, account: Object, obj: Object, name: Name)
    requires WellTyped(tuples) && SameBesidesParents(tuples, other)
    requires ParentFree(obj.kind, name) && Holds(tuples, account, obj, name)
    ensures Holds(other, account, obj, name)
  {
    var k := Meant(other, account);
    var m: Meaning := (o: Object, r: Name) => ParentFree(o.kind, r) ==> k(o, r);
    assert AgreeBesidesParents(m, k);
    forall o: Object, r: Name | Reads(tuples, account, m, Catalogue(o.kind, r), o, r) ensures m(o, r) {
      if ParentFree(o.kind, r) {
        ReadsIgnoresParents(tuples, other, account, m, k, o, r);
        Line(other, account, o, r, Catalogue(o.kind, r));
      }
    }
    LeastFixedPoint(Catalogue, tuples, account, m);
    assert Meant(tuples, account)(obj, name);
  }

  // Links between artists or labels change nothing about these permissions.
  lemma NotInheritedThroughParents(tuples: set<Tuple>, other: set<Tuple>, account: Object, obj: Object, name: Name)
    requires WellTyped(tuples) && WellTyped(other) && SameBesidesParents(tuples, other)
    requires IsOwned(obj.kind) && name in {Delete, Publish, ManageParticipants, ManageShareLinks}
    ensures Holds(tuples, account, obj, name) <==> Holds(other, account, obj, name)
  {
    if Holds(tuples, account, obj, name) {
      HoldsIgnoresParents(tuples, other, account, obj, name);
    }
    if Holds(other, account, obj, name) {
      HoldsIgnoresParents(other, tuples, account, obj, name);
    }
  }

  // ---------------------------------------------------------------- administrators of the platform

  // The account holds is_admin of a platform the resource is under.
  ghost predicate AdminHeld(tuples: set<Tuple>, account: Object, obj: Object) {
    exists p :: Tuple(obj, Policy, Direct(p)) in tuples && Holds(tuples, account, p, IsAdmin)
  }

  lemma AdminHeldMeaning(tuples: set<Tuple>, account: Object, obj: Object)
    requires WellTyped(tuples)
    ensures AdminHeld(tuples, account, obj) <==> AdminOf(tuples, account, obj)
  {
    forall p | Tuple(obj, Policy, Direct(p)) in tuples
      ensures Holds(tuples, account, p, IsAdmin) <==> InRole(tuples, account, p, PlatformAdminRole) {
      TypedTuple(tuples, obj, Policy, Direct(p));
      PlatformRolesExactly(tuples, account, p);
    }
  }

  predicate HasPolicy(kind: Kind) {
    Catalogue(kind, Policy).Relation?
  }

  lemma AdminIsAuthor(tuples: set<Tuple>, account: Object, p: Object)
    requires Holds(tuples, account, p, IsAdmin)
    ensures p.kind == Platform && Holds(tuples, account, p, IsAuthor) && Holds(tuples, account, p, IsUser)
  {
    Line(tuples, account, p, IsAdmin, Catalogue(p.kind, IsAdmin));
    assert p.kind == Platform;
    Renamed(tuples, account, p, IsAdmin, PlatformAdminRole);
    EitherOf(tuples, account, p, IsAuthor, PlatformAuthorRole, PlatformAdminRole);
    var m, others := Meant(tuples, account), Union(Ref(PlatformUserRole), Ref(PlatformAuthorRole));
    Line(tuples, account, p, IsUser, Permission(Union(others, Ref(PlatformAdminRole))));
    assert Eval(tuples, m, Ref(PlatformAdminRole), p);
  }

  // Both arrows over `policy` are satisfied by a platform administrator.
  lemma ThroughPolicy(tuples: set<Tuple>, account: Object, obj: Object, name: Name, of: Name)
    requires AdminHeld(tuples, account, obj) && of in {IsAdmin, IsAuthor}
    requires Catalogue(obj.kind, name) == Permission(Arrow(Policy, of))
    ensures Holds(tuples, account, obj, name)
  {
    var p :| Tuple(obj, Policy, Direct(p)) in tuples && Holds(tuples, account, p, IsAdmin);
    AdminIsAuthor(tuples, account, p);
    Through(tuples, account, obj, name, Policy, of);
  }

  lemma LeftOfUnion(tuples: set<Tuple>, account: Object, obj: Object, name: Name, left: Name, right: Expr)
    requires Catalogue(obj.kind, name) == Permission(Union(Ref(left), right)) && Holds(tuples, account, obj, left)
    ensures Holds(tuples, account, obj, name)
  {
    Line(tuples, account, obj, name, Permission(Union(Ref(left), right)));
    assert Eval(tuples, Meant(tuples, account), Ref(left), obj);
  }

  lemma AdminOnPostFirst(tuples: set<Tuple>, account: Object, obj: Object)
    requires obj.kind == Post && AdminHeld(tuples, account, obj)
    ensures Holds(tuples, account, obj, PlatformAdmin) && Holds(tuples, account, obj, PlatformAuthor)
    ensures Holds(tuples, account, obj, AuthorManage) && Holds(tuples, account, obj, Edit)
  {
    ThroughPolicy(tuples, account, obj, PlatformAdmin, IsAdmin);
    ThroughPolicy(tuples, account, obj, PlatformAuthor, IsAuthor);
    LeftOfUnion(tuples, account, obj, AuthorManage, PlatformAdmin, Both(Ref(Author), Ref(PlatformAuthor)));
    LeftOfUnion(tuples, account, obj, Edit, AuthorManage, Ref(CollaboratorEdit));
  }

  lemma AdminOnPost(tuples: set<Tuple>, account: Object, obj: Object, name: Name)
    requires obj.kind == Post && AdminHeld(tuples, account, obj)
    requires PostSchema(name).Permission? && name != CollaboratorEdit
    ensures Holds(tuples, account, obj, name)
  {
    AdminOnPostFirst(tuples, account, obj);
    if name == View {
      Renamed(tuples, account, obj, View, Edit);
    } else if name == ViewArchived {
      Renamed(tuples, account, obj, name, PlatformAuthor);
    } else if name == EditArchived {
      Renamed(tuples, account, obj, name, PlatformAdmin);
    } else if name in {Delete, Publish, Manage, ManageParticipants, ManageShareLinks} {
      Renamed(tuples, account, obj, name, AuthorManage);
    }
  }

  lemma AdminOnOwned(tuples: set<Tuple>, account: Object, obj: Object, name: Name)
    requires IsOwned(obj.kind) && AdminHeld(tuples, account, obj) && OwnedSchema(name).Permission?
    ensures Holds(tuples, account, obj, name)
  {
    AdminOwnsAndManages(tuples, account, obj);
    if name in {Edit, Manage} {
      Renamed(tuples, account, obj, name, ManagerManage);
    } else if name == View {
      Renamed(tuples, account, obj, Edit, ManagerManage);
      Renamed(tuples, account, obj, View, Edit);
    } else if name in {Delete, Publish, ManageParticipants, ManageShareLinks} {
      Renamed(tuples, account, obj, name, OwnerManage);
    }
  }

  lemma AdminOwnsAndManages(tuples: set<Tuple>, account: Object, obj: Object)
    requires IsOwned(obj.kind) && AdminHeld(tuples, account, obj)
    ensures Holds(tuples, account, obj, PlatformAdmin)
    ensures Holds(tuples, account, obj, OwnerManage) && Holds(tuples, account, obj, ManagerManage)
  {
    ThroughPolicy(tuples, account, obj, PlatformAdmin, IsAdmin);
    LeftOfUnion(tuples, account, obj, OwnerManage, PlatformAdmin, Ref(Owner));
    Line(tuples, account, obj, ManagerManage, Permission(MANAGER_LINE));
    ManagerLineReads(tuples, account, Meant(tuples, account), obj);
  }

  lemma AdminOnSeries(tuples: set<Tuple>, account: Object, obj: Object, name: Name)
    requires obj.kind == Series && AdminHeld(tuples, account, obj) && SeriesSchema(name).Permission?
    ensures Holds(tuples, account, obj, name)
  {
    ThroughPolicy(tuples, account, obj, PlatformAdmin, IsAdmin);
    LeftOfUnion(tuples, account, obj, ManagerManage, PlatformAdmin, Ref(Manager));
    if name in {Edit, Publish, Manage} {
      Renamed(tuples, account, obj, name, ManagerManage);
    } else if name == View {
      Renamed(tuples, account, obj, Edit, ManagerManage);
      Renamed(tuples, account, obj, View, Edit);
    } else if name in {Delete, ManageParticipants} {
      Renamed(tuples, account, obj, name, PlatformAdmin);
    }
  }

  lemma AdminOnMapPlace(tuples: set<Tuple>, account: Object, obj: Object, name: Name)
    requires obj.kind == MapPlace && AdminHeld(tuples, account, obj) && MapPlaceSchema(name).Permission?
    ensures Holds(tuples, account, obj, name)
  {
    ThroughPolicy(tuples, account, obj, PlatformAdmin, IsAdmin);
    if name == PlatformAuthor {
      ThroughPolicy(tuples, account, obj, PlatformAuthor, IsAuthor);
    } else if name in {View, Edit, Manage} {
      LeftOfUnion(tuples, account, obj, name, PlatformAdmin, Ref(PlatformAuthor));
    } else if name == Delete {
      Renamed(tuples, account, obj, name, PlatformAdmin);
    }
  }

  lemma AdminOnOthers(tuples: set<Tuple>, account: Object, obj: Object, name: Name)
    requires IsAdminManaged(obj.kind) && AdminHeld(tuples, account, obj) && AdminSchema(obj.kind, name).Permission?
    ensures Holds(tuples, account, obj, name)
  {
    ThroughPolicy(tuples, account, obj, PlatformAdmin, IsAdmin);
    Renamed(tuples, account, obj, Manage, PlatformAdmin);
    if name == ViewArchived {
      ThroughPolicy(tuples, account, obj, ViewArchived, IsAuthor);
    } else if name != PlatformAdmin {
      Renamed(tuples, account, obj, name, AdminSchema(obj.kind, name).body.name);
    }
  }

  // Whoever holds is_admin of a platform the resource is under holds all of its
  // permissions, with one exception; for this the tuples may be of any form.
  lemma AdminHeldHoldsEverything(tuples: set<Tuple>, account: Object, obj: Object, name: Name)
    requires AdminHeld(tuples, account, obj) && HasPolicy(obj.kind) && Catalogue(obj.kind, name).Permission?
    requires !(obj.kind == Post && name == CollaboratorEdit)
    ensures Holds(tuples, account, obj, name)
  {
    if obj.kind == Post {
      AdminOnPost(tuples, account, obj, name);
    } else if IsOwned(obj.kind) {
      AdminOnOwned(tuples, account, obj, name);
    } else {
      AdminOnRest(tuples, account, obj, name);
    }
  }

  lemma AdminOnRest(tuples: set<Tuple>, account: Object, obj: Object, name: Name)
    requires AdminHeld(tuples, account, obj) && HasPolicy(obj.kind) && Catalogue(obj.kind, name).Permission?
    requires obj.kind != Post && !IsOwned(obj.kind)
    ensures Holds(tuples, account, obj, name)
  {
    if obj.kind == Series {
      AdminOnSeries(tuples, account, obj, name);
    } else if obj.kind == MapPlace {
      AdminOnMapPlace(tuples, account, obj, name);
    } else {
      AdminOnOthers(tuples, account, obj, name);
    }
  }

  // So does an administrator in the tuples.
  lemma AdminHoldsEverything(tuples: set<Tuple>, account: Object, obj: Object, name: Name)
    requires WellTyped(tuples) && AdminOf(tuples, account, obj)
    requires HasPolicy(obj.kind) && Catalogue(obj.kind, name).Permission?
    requires !(obj.kind == Post && name == CollaboratorEdit)
    ensures Holds(tuples, account, obj, name)
  {
    AdminHeldMeaning(tuples, account, obj);
    AdminHeldHoldsEverything(tuples, account, obj, name);
  }

  // The exception: only the collaborators named on the post have it.
  lemma CollaboratorEditExact(tuples: set<Tuple>, account: Object, obj: Object)
    requires WellTyped(tuples) && obj.kind == Post
    ensures Holds(tuples, account, obj, CollaboratorEdit) <==> Tuple(obj, Collaborator, Direct(account)) in tuples
  {
    Renamed(tuples, account, obj, CollaboratorEdit, Collaborator);
    AccountRelation(tuples, account, obj, Collaborator);
  }

  // An administrator without that tuple does not.
  lemma AdminNeedNotCollaborate(account: Object, role: Object, platform: Object, post: Object)
    requires account.kind == AccountIdentity && role.kind == Role && platform.kind == Platform && post.kind == Post
    ensures var tuples := {Tuple(role, RoleMember, Direct(account)),
                           Tuple(platform, PlatformAdminRole, Userset(role, RoleMember)),
                           Tuple(post, Policy, Direct(platform))};
            && WellTyped(tuples) && AdminOf(tuples, account, post)
            && !Holds(tuples, account, post, CollaboratorEdit)
  {
    var tuples := {Tuple(role, RoleMember, Direct(account)),
                   Tuple(platform, PlatformAdminRole, Userset(role, RoleMember)),
                   Tuple(post, Policy, Direct(platform))};
    assert MemberThrough(tuples, account, role, [role]);
    assert InRole(tuples, account, platform, PlatformAdminRole);
    CollaboratorEditExact(tuples, account, post);
  }

  // A post is managed by administrators and by its author while an author of
  // the platform.
  lemma PostManageExact(tuples: set<Tuple>, account: Object, obj: Object, name: Name)
    requires WellTyped(tuples) && obj.kind == Post
    requires name in {AuthorManage, Delete, Publish, Manage, ManageParticipants, ManageShareLinks}
    ensures Holds(tuples, account, obj, name) <==>
            || AdminOf(tuples, account, obj)
            || (Tuple(obj, Author, Direct(account)) in tuples && AuthorOf(tuples, account, obj))
  {
    PostManageRefers(tuples, account, obj, name);
    PlatformAdminMeaning(tuples, account, obj);
    ThroughPolicyExactly(tuples, account, obj, PlatformAuthor, IsAuthor);
    AccountRelation(tuples, account, obj, Author);
  }

  lemma PostManageRefers(tuples: set<Tuple>, account: Object, obj: Object, name: Name)
    requires obj.kind == Post
    requires name in {AuthorManage, Delete, Publish, Manage, ManageParticipants, ManageShareLinks}
    ensures Holds(tuples, account, obj, name) <==>
            || Holds(tuples, account, obj, PlatformAdmin)
            || (Holds(tuples, account, obj, Author) && Holds(tuples, account, obj, PlatformAuthor))
  {
    var m, both := Meant(tuples, account), Both(Ref(Author), Ref(PlatformAuthor));
    if name != AuthorManage {
      Renamed(tuples, account, obj, name, AuthorManage);
    }
    Line(tuples, account, obj, AuthorManage, Permission(Union(Ref(PlatformAdmin), both)));
    assert Eval(tuples, m, Ref(PlatformAdmin), obj) == m(obj, PlatformAdmin);
    assert Eval(tuples, m, Ref(Author), obj) == m(obj, Author);
    assert Eval(tuples, m, Ref(PlatformAuthor), obj) == m(obj, PlatformAuthor);
    assert Eval(tuples, m, both, obj) <==> m(obj, Author) && m(obj, PlatformAuthor);
  }

  // ---------------------------------------------------------------- every permission, in tuples

  // The permissions of a definition by what the account is to the resource: an
  // administrator or author of its platform, its author, owner or manager, a
  // collaborator, or granted something at an ancestor.
  predicate OnPost(name: Name, admin: bool, author: bool, wrote: bool, collaborates: bool) {
    match name
    case PlatformAdmin | EditArchived => admin
    case PlatformAuthor | ViewArchived => author
    case AuthorManage | Delete | Publish | Manage | ManageParticipants | ManageShareLinks => admin || (wrote && author)
    case CollaboratorEdit => collaborates
    case Edit | View => admin || (wrote && author) || collaborates
    case _ => false
  }

  // Artists and labels.
  predicate OnOwned(name: Name, admin: bool, owns: bool, ancestor: bool) {
    match name
    case PlatformAdmin => admin
    case OwnerManage | Delete | Publish | ManageParticipants | ManageShareLinks => admin || owns
    case ManagerManage | Manage | Edit | View => ancestor
    case _ => false
  }

  predicate OnSeries(name: Name, admin: bool, manages: bool) {
    match name
    case PlatformAdmin | Delete | ManageParticipants => admin
    case ManagerManage | Edit | View | Publish | Manage => admin || manages
    case _ => false
  }

  predicate OnMapPlace(name: Name, admin: bool, author: bool) {
    match name
    case PlatformAdmin | Delete => admin
    case PlatformAuthor => author
    case View | Edit | Manage => admin || author
    case _ => false
  }

  // The definitions only administrators manage; some lack some names, and four
  // can be viewed by authors once archived.
  predicate OnOther(kind: Kind, name: Name, admin: bool, author: bool) {
    match name
    case PlatformAdmin | View | Edit | Delete | Manage => admin
    case Publish =>
      kind in {Page, Work, Release, ProgramEvent, ProgramEventSeries, Form, TermsHistory, PrivacyHistory} && admin
    case ManageShareLinks => kind in {Page, Work, Release, Form, TermsHistory, PrivacyHistory} && admin
    case EditArchived => kind in {Work, ProgramEvent, TermsHistory, PrivacyHistory} && admin
    case ViewArchived => kind in {Work, ProgramEvent, TermsHistory, PrivacyHistory} && author
    case _ => false
  }

  ghost predicate OnPlatform(tuples: set<Tuple>, account: Object, p: Object, name: Name) {
    match name
    case IsAdmin => InRole(tuples, account, p, PlatformAdminRole)
    case IsAuthor => InRole(tuples, account, p, PlatformAuthorRole) || InRole(tuples, account, p, PlatformAdminRole)
    case IsUser =>
      || InRole(tuples, account, p, PlatformUserRole) || InRole(tuples, account, p, PlatformAuthorRole)
      || InRole(tuples, account, p, PlatformAdminRole)
    case _ => false
  }

  // What the tuples grant, definition by definition.
  ghost predicate Granted(tuples: set<Tuple>, account: Object, obj: Object, name: Name) {
    var admin, author := AdminOf(tuples, account, obj), AuthorOf(tuples, account, obj);
    match obj.kind
    case AccountIdentity | Role | EmailEventMapping | MailAdapter | EmailSuppression | TranslationSettings
      | TranslationProvider => false
    case Platform => OnPlatform(tuples, account, obj, name)
    case Post =>
      OnPost(name, admin, author, Tuple(obj, Author, Direct(account)) in tuples,
             Tuple(obj, Collaborator, Direct(account)) in tuples)
    case Artist | Label =>
      OnOwned(name, admin, Tuple(obj, Owner, Direct(account)) in tuples, SomeAncestorGrants(tuples, account, obj))
    case Series => OnSeries(name, admin, Tuple(obj, Manager, Direct(account)) in tuples)
    case MapPlace => OnMapPlace(name, admin, author)
    case _ => OnOther(obj.kind, name, admin, author)
  }

  predicate IsRelation(name: Name) {
    name in {RoleMember, PlatformAdminRole, PlatformAuthorRole, PlatformUserRole,
             Policy, Author, Collaborator, Owner, Manager, Parent}
  }

  lemma NotDefined(tuples: set<Tuple>, account: Object, obj: Object, name: Name)
    requires Catalogue(obj.kind, name) == Undefined
    ensures !Holds(tuples, account, obj, name)
  {
    Line(tuples, account, obj, name, Undefined);
  }

  lemma PostEditRefers(tuples: set<Tuple>, account: Object, obj: Object, name: Name)
    requires obj.kind == Post && (name == Edit || name == View)
    ensures Holds(tuples, account, obj, name) <==>
            Holds(tuples, account, obj, AuthorManage) || Holds(tuples, account, obj, Collaborator)
  {
    Renamed(tuples, account, obj, CollaboratorEdit, Collaborator);
    EitherOf(tuples, account, obj, Edit, AuthorManage, CollaboratorEdit);
    Renamed(tuples, account, obj, View, Edit);
  }

  lemma PostRenamed(tuples: set<Tuple>, account: Object, obj: Object)
    requires obj.kind == Post
    ensures Holds(tuples, account, obj, CollaboratorEdit) <==> Holds(tuples, account, obj, Collaborator)
    ensures Holds(tuples, account, obj, ViewArchived) <==> Holds(tuples, account, obj, PlatformAuthor)
    ensures Holds(tuples, account, obj, EditArchived) <==> Holds(tuples, account, obj, PlatformAdmin)
  {
    Renamed(tuples, account, obj, CollaboratorEdit, Collaborator);
    Renamed(tuples, account, obj, ViewArchived, PlatformAuthor);
    Renamed(tuples, account, obj, EditArchived, PlatformAdmin);
  }

  lemma PostNames(tuples: set<Tuple>, account: Object, obj: Object, name: Name)
    requires obj.kind == Post && !IsRelation(name)
    ensures Holds(tuples, account, obj, name) <==>
            OnPost(name, Holds(tuples, account, obj, PlatformAdmin), Holds(tuples, account, obj, PlatformAuthor),
                   Holds(tuples, account, obj, Author), Holds(tuples, account, obj, Collaborator))
  {
    if name in {AuthorManage, Delete, Publish, Manage, ManageParticipants, ManageShareLinks} {
      PostManageRefers(tuples, account, obj, name);
    } else if name == Edit || name == View {
      PostManageRefers(tuples, account, obj, AuthorManage);
      PostEditRefers(tuples, account, obj, name);
    } else if name in {CollaboratorEdit, ViewArchived, EditArchived} {
      PostRenamed(tuples, account, obj);
    } else if PostSchema(name) == Undefined {
      NotDefined(tuples, account, obj, name);
    }
  }

  lemma OwnedNames(tuples: set<Tuple>, account: Object, obj: Object, name: Name)
    requires IsOwned(obj.kind) && !IsRelation(name)
    ensures Holds(tuples, account, obj, name) <==>
            OnOwned(name, Holds(tuples, account, obj, PlatformAdmin), Holds(tuples, account, obj, Owner),
                    Holds(tuples, account, obj, Manage))
  {
    Renamed(tuples, account, obj, Manage, ManagerManage);
    Renamed(tuples, account, obj, Edit, ManagerManage);
    if name in {OwnerManage, Delete, Publish, ManageParticipants, ManageShareLinks} {
      OwnerManageRefers(tuples, account, obj, name);
    } else if name == View {
      Renamed(tuples, account, obj, View, Edit);
    } else if OwnedSchema(name) == Undefined {
      NotDefined(tuples, account, obj, name);
    }
  }

  lemma SeriesNames(tuples: set<Tuple>, account: Object, obj: Object, name: Name)
    requires obj.kind == Series && !IsRelation(name)
    ensures Holds(tuples, account, obj, name) <==>
            OnSeries(name, Holds(tuples, account, obj, PlatformAdmin), Holds(tuples, account, obj, Manager))
  {
    EitherOf(tuples, account, obj, ManagerManage, PlatformAdmin, Manager);
    Renamed(tuples, account, obj, Edit, ManagerManage);
    if name in {Publish, Manage} {
      Renamed(tuples, account, obj, name, ManagerManage);
    } else if name == View {
      Renamed(tuples, account, obj, View, Edit);
    } else if name in {Delete, ManageParticipants} {
      Renamed(tuples, account, obj, name, PlatformAdmin);
    } else if SeriesSchema(name) == Undefined {
      NotDefined(tuples, account, obj, name);
    }
  }

  lemma MapPlaceNames(tuples: set<Tuple>, account: Object, obj: Object, name: Name)
    requires obj.kind == MapPlace && !IsRelation(name)
    ensures Holds(tuples, account, obj, name) <==>
            OnMapPlace(name, Holds(tuples, account, obj, PlatformAdmin), Holds(tuples, account, obj, PlatformAuthor))
  {
    if name in {View, Edit, Manage} {
      EitherOf(tuples, account, obj, name, PlatformAdmin, PlatformAuthor);
    } else if name == Delete {
      Renamed(tuples, account, obj, Delete, PlatformAdmin);
    } else if MapPlaceSchema(name) == Undefined {
      NotDefined(tuples, account, obj, name);
    }
  }

  // Here viewing archived resources goes to the platform's authors directly.
  lemma OtherNames(tuples: set<Tuple>, account: Object, obj: Object, name: Name)
    requires IsAdminManaged(obj.kind) && !IsRelation(name)
    ensures Holds(tuples, account, obj, name) <==>
            OnOther(obj.kind, name, Holds(tuples, account, obj, PlatformAdmin), Holds(tuples, account, obj, ViewArchived))
  {
    Renamed(tuples, account, obj, Manage, PlatformAdmin);
    if AdminSchema(obj.kind, name) == Undefined {
      NotDefined(tuples, account, obj, name);
    } else if name != PlatformAdmin && name != ViewArchived {
      Renamed(tuples, account, obj, name, AdminSchema(obj.kind, name).body.name);
    }
  }

  lemma PostExactly(tuples: set<Tuple>, account: Object, obj: Object, name: Name)
    requires WellTyped(tuples) && obj.kind == Post && !IsRelation(name)
    ensures Holds(tuples, account, obj, name) <==> Granted(tuples, account, obj, name)
  {
    PostNames(tuples, account, obj, name);
    PlatformAdminMeaning(tuples, account, obj);
    ThroughPolicyExactly(tuples, account, obj, PlatformAuthor, IsAuthor);
    AccountRelation(tuples, account, obj, Author);
    AccountRelation(tuples, account, obj, Collaborator);
  }

  lemma OwnedExactly(tuples: set<Tuple>, account: Object, obj: Object, name: Name)
    requires WellTyped(tuples) && IsOwned(obj.kind) && !IsRelation(name)
    ensures Holds(tuples, account, obj, name) <==> Granted(tuples, account, obj, name)
  {
    OwnedNames(tuples, account, obj, name);
    PlatformAdminMeaning(tuples, account, obj);
    AccountRelation(tuples, account, obj, Owner);
    ManageIffSomeAncestorGrants(tuples, account, obj, Manage);
  }

  lemma SeriesExactly(tuples: set<Tuple>, account: Object, obj: Object, name: Name)
    requires WellTyped(tuples) && obj.kind == Series && !IsRelation(name)
    ensures Holds(tuples, account, obj, name) <==> Granted(tuples, account, obj, name)
  {
    SeriesNames(tuples, account, obj, name);
    PlatformAdminMeaning(tuples, account, obj);
    AccountRelation(tuples, account, obj, Manager);
  }

  lemma MapPlaceExactly(tuples: set<Tuple>, account: Object, obj: Object, name: Name)
    requires WellTyped(tuples) && obj.kind == MapPlace && !IsRelation(name)
    ensures Holds(tuples, account, obj, name) <==> Granted(tuples, account, obj, name)
  {
    MapPlaceNames(tuples, account, obj, name);
    PlatformAdminMeaning(tuples, account, obj);
    ThroughPolicyExactly(tuples, account, obj, PlatformAuthor, IsAuthor);
  }

  lemma OtherGranted(tuples: set<Tuple>, account: Object, obj: Object, name: Name)
    requires IsAdminManaged(obj.kind)
    ensures Granted(tuples, account, obj, name) <==>
            OnOther(obj.kind, name, AdminOf(tuples, account, obj), AuthorOf(tuples, account, obj))
  {
  }

  lemma OtherExactly(tuples: set<Tuple>, account: Object, obj: Object, name: Name)
    requires WellTyped(tuples) && IsAdminManaged(obj.kind) && !IsRelation(name)
    ensures Holds(tuples, account, obj, name) <==>
            OnOther(obj.kind, name, AdminOf(tuples, account, obj), AuthorOf(tuples, account, obj))
  {
    OtherNames(tuples, account, obj, name);
    PlatformAdminMeaning(tuples, account, obj);
    if HasArchive(obj.kind) {
      ThroughPolicyExactly(tuples, account, obj, ViewArchived, IsAuthor);
    }
  }

  lemma PlatformExactly(tuples: set<Tuple>, account: Object, p: Object, name: Name)
    requires WellTyped(tuples) && p.kind == Platform && !IsRelation(name)
    ensures Holds(tuples, account, p, name) <==> Granted(tuples, account, p, name)
  {
    PlatformRolesExactly(tuples, account, p);
    if name !in {IsAdmin, IsAuthor, IsUser} {
      NotDefined(tuples, account, p, name);
    }
  }

  lemma ResourceExactly(tuples: set<Tuple>, account: Object, obj: Object, name: Name)
    requires WellTyped(tuples) && !IsRelation(name) && !IsBare(obj.kind) && obj.kind != Role && obj.kind != Platform
    ensures Holds(tuples, account, obj, name) <==> Granted(tuples, account, obj, name)
  {
    if obj.kind == Post {
      PostExactly(tuples, account, obj, name);
    } else if IsOwned(obj.kind) {
      OwnedExactly(tuples, account, obj, name);
    } else if obj.kind == Series {
      SeriesExactly(tuples, account, obj, name);
    } else if obj.kind == MapPlace {
      MapPlaceExactly(tuples, account, obj, name);
    } else {
      OtherExactly(tuples, account, obj, name);
      OtherGranted(tuples, account, obj, name);
    }
  }

  // Over every well-typed set of tuples each permission of each definition is
  // held exactly by whom the tuples grant it, and a name a definition does not
  // have is held by nobody.
  lemma PermissionsExactly(tuples: set<Tuple>, account: Object, obj: Object, name: Name)
    requires WellTyped(tuples) && !IsRelation(name)
    ensures Holds(tuples, account, obj, name) <==> Granted(tuples, account, obj, name)
  {
    if IsBare(obj.kind) || obj.kind == Role {
      NotDefined(tuples, account, obj, name);
    } else if obj.kind == Platform {
      PlatformExactly(tuples, account, obj, name);
    } else {
      ResourceExactly(tuples, account, obj, name);
    }
  }
}
