// Relationship tuples and permissions over them. A schema gives each name of
// a definition as a relation or as an expression of union, intersection and
// arrow; what holds is the least fixed point, also when tuples form cycles.

module Relations {
  datatype Kind =
    | AccountIdentity | Role | Platform | Post | Artist | Label | Series | Page | Work | Release | Track
    | ProgramEvent | ProgramEventSeries | File | Campaign | AudienceSegment | MapPlace | SiteSetting | Menu
    | Category | Tag | Genre | Style | Format | Client | Member | Form | EmailTemplate | EmailLayout
    | EmailEventMapping | MailAdapter | EmailSuppression | TranslationSettings | TranslationProvider
    | TermsHistory | PrivacyHistory | MapTheme

  datatype Name =
    | RoleMember | PlatformAdminRole | PlatformAuthorRole | PlatformUserRole | IsAdmin | IsAuthor | IsUser
    | Policy | Author | Collaborator | Owner | Manager | Parent
    | PlatformAdmin | PlatformAuthor | AuthorManage | CollaboratorEdit | OwnerManage | ManagerManage
    | Edit | View | ViewArchived | EditArchived | Delete | Publish | Manage | ManageParticipants | ManageShareLinks

  datatype Expr =
    | Ref(name: Name)
    | Union(left: Expr, right: Expr)
    | Both(left: Expr, right: Expr)
    | Arrow(relation: Name, permission: Name)

  datatype Definition = Undefined | Relation | Permission(body: Expr)

  datatype Object = Object(kind: Kind, id: string)
  datatype Subject = Direct(obj: Object) | Userset(obj: Object, relation: Name)
  datatype Tuple = Tuple(resource: Object, relation: Name, subject: Subject)

  type Schema = (Kind, Name) -> Definition

  // What is taken to hold of each object.
  type Meaning = (Object, Name) -> bool

  ghost predicate Eval(tuples: set<Tuple>, m: Meaning, e: Expr, obj: Object) {
    match e
    case Ref(name) => m(obj, name)
    case Union(left, right) => Eval(tuples, m, left, obj) || Eval(tuples, m, right, obj)
    case Both(left, right) => Eval(tuples, m, left, obj) && Eval(tuples, m, right, obj)
    case Arrow(relation, permission) => exists o :: Tuple(obj, relation, Direct(o)) in tuples && m(o, permission)
  }

  // One line of the schema, read with `m` for what it refers to.
  ghost predicate Reads(tuples: set<Tuple>, account: Object, m: Meaning, line: Definition, obj: Object, name: Name) {
    match line
    case Undefined => false
    case Relation =>
      || Tuple(obj, name, Direct(account)) in tuples
      || exists o, r :: Tuple(obj, name, Userset(o, r)) in tuples && m(o, r)
    case Permission(body) => Eval(tuples, m, body, obj)
  }

  // What is derived in at most `n` readings.
  ghost function Stage(schema: Schema, tuples: set<Tuple>, account: Object, n: nat): Meaning {
    if n == 0 then (o, r) => false
    else
      var before := Stage(schema, tuples, account, n - 1);
      (o: Object, r) => Reads(tuples, account, before, schema(o.kind, r), o, r)
  }

  // The account has the permission: some finite derivation shows it.
  ghost predicate Derivable(schema: Schema, tuples: set<Tuple>, account: Object, obj: Object, name: Name) {
    exists n: nat :: Stage(schema, tuples, account, n)(obj, name)
  }

  ghost function Derived(schema: Schema, tuples: set<Tuple>, account: Object): Meaning {
    (o, r) => Derivable(schema, tuples, account, o, r)
  }

  ghost predicate Below(m: Meaning, k: Meaning) {
    forall o, r :: m(o, r) ==> k(o, r)
  }

  lemma {:induction false} EvalGrows(tuples: set<Tuple>, more: set<Tuple>, m: Meaning, k: Meaning, e: Expr, obj: Object)
    requires tuples <= more && Below(m, k) && Eval(tuples, m, e, obj)
    ensures Eval(more, k, e, obj)
  {
    match e {
      case Ref(_) =>
      case Union(left, right) =>
        if Eval(tuples, m, left, obj) {
          EvalGrows(tuples, more, m, k, left, obj);
        } else {
          EvalGrows(tuples, more, m, k, right, obj);
        }
      case Both(left, right) =>
        EvalGrows(tuples, more, m, k, left, obj);
        EvalGrows(tuples, more, m, k, right, obj);
      case Arrow(relation, permission) =>
    }
  }

  lemma ReadsGrows(tuples: set<Tuple>, more: set<Tuple>, account: Object, m: Meaning, k: Meaning, line: Definition, obj: Object, name: Name)
    requires tuples <= more && Below(m, k) && Reads(tuples, account, m, line, obj, name)
    ensures Reads(more, account, k, line, obj, name)
  {
    if line.Permission? {
      EvalGrows(tuples, more, m, k, line.body, obj);
    }
  }

  lemma {:induction false} StagesGrow(schema: Schema, tuples: set<Tuple>, account: Object, n: nat, k: nat)
    requires n <= k
    ensures Below(Stage(schema, tuples, account, n), Stage(schema, tuples, account, k))
  {
    var early, late := Stage(schema, tuples, account, n), Stage(schema, tuples, account, k);
    if n > 0 {
      StagesGrow(schema, tuples, account, n - 1, k - 1);
      var before, after := Stage(schema, tuples, account, n - 1), Stage(schema, tuples, account, k - 1);
      forall o, r | early(o, r) ensures late(o, r) {
        ReadsGrows(tuples, tuples, account, before, after, schema(o.kind, r), o, r);
      }
    }
  }

  // What one reading needs of the derived facts, some stage already shows.
  lemma {:induction false} EvalAtStage(schema: Schema, tuples: set<Tuple>, account: Object, e: Expr, obj: Object) returns (n: nat)
    requires Eval(tuples, Derived(schema, tuples, account), e, obj)
    ensures Eval(tuples, Stage(schema, tuples, account, n), e, obj)
  {
    match e {
      case Ref(name) =>
        assert Derivable(schema, tuples, account, obj, name);
        n :| Stage(schema, tuples, account, n)(obj, name);
      case Union(left, right) =>
        if Eval(tuples, Derived(schema, tuples, account), left, obj) {
          n := EvalAtStage(schema, tuples, account, left, obj);
        } else {
          n := EvalAtStage(schema, tuples, account, right, obj);
        }
      case Both(left, right) =>
        var k := EvalAtStage(schema, tuples, account, left, obj);
        var l := EvalAtStage(schema, tuples, account, right, obj);
        n := if k < l then l else k;
        StagesGrow(schema, tuples, account, k, n);
        StagesGrow(schema, tuples, account, l, n);
        EvalGrows(tuples, tuples, Stage(schema, tuples, account, k), Stage(schema, tuples, account, n), left, obj);
        EvalGrows(tuples, tuples, Stage(schema, tuples, account, l), Stage(schema, tuples, account, n), right, obj);
      case Arrow(relation, permission) =>
        var o :| Tuple(obj, relation, Direct(o)) in tuples && Derived(schema, tuples, account)(o, permission);
        assert Derivable(schema, tuples, account, o, permission);
        n :| Stage(schema, tuples, account, n)(o, permission);
    }
  }

  lemma ReadAtStage(schema: Schema, tuples: set<Tuple>, account: Object, line: Definition, obj: Object, name: Name) returns (n: nat)
    requires Reads(tuples, account, Derived(schema, tuples, account), line, obj, name)
    ensures Reads(tuples, account, Stage(schema, tuples, account, n), line, obj, name)
  {
    n := 0;
    if line.Permission? {
      n := EvalAtStage(schema, tuples, account, line.body, obj);
    } else if Tuple(obj, name, Direct(account)) !in tuples {
      var o, r :| Tuple(obj, name, Userset(o, r)) in tuples && Derived(schema, tuples, account)(o, r);
      assert Derivable(schema, tuples, account, o, r);
      n :| Stage(schema, tuples, account, n)(o, r);
    }
  }

  // The derived facts are a fixed point of the schema ...
  lemma FixedPoint(schema: Schema, tuples: set<Tuple>, account: Object, obj: Object, name: Name)
    ensures Derivable(schema, tuples, account, obj, name) <==>
            Reads(tuples, account, Derived(schema, tuples, account), schema(obj.kind, name), obj, name)
  {
    var line, derived := schema(obj.kind, name), Derived(schema, tuples, account);
    if Derivable(schema, tuples, account, obj, name) {
      var n: nat :| Stage(schema, tuples, account, n)(obj, name);
      var before := Stage(schema, tuples, account, n - 1);
      assert Below(before, derived);
      ReadsGrows(tuples, tuples, account, before, derived, line, obj, name);
    }
    if Reads(tuples, account, derived, line, obj, name) {
      var n := ReadAtStage(schema, tuples, account, line, obj, name);
      assert Stage(schema, tuples, account, n + 1)(obj, name);
    }
  }

  ghost predicate Closed(schema: Schema, tuples: set<Tuple>, account: Object, m: Meaning) {
    forall o: Object, r: Name :: Reads(tuples, account, m, schema(o.kind, r), o, r) ==> m(o, r)
  }

  lemma {:induction false} StageBelow(schema: Schema, tuples: set<Tuple>, account: Object, m: Meaning, n: nat)
    requires Closed(schema, tuples, account, m)
    ensures Below(Stage(schema, tuples, account, n), m)
  {
    if n > 0 {
      StageBelow(schema, tuples, account, m, n - 1);
      var before, stage := Stage(schema, tuples, account, n - 1), Stage(schema, tuples, account, n);
      forall o, r | stage(o, r) ensures m(o, r) {
        ReadsGrows(tuples, tuples, account, before, m, schema(o.kind, r), o, r);
      }
    }
  }

  // ... and the least one: nothing is granted by going round a cycle.
  lemma LeastFixedPoint(schema: Schema, tuples: set<Tuple>, account: Object, m: Meaning)
    requires Closed(schema, tuples, account, m)
    ensures Below(Derived(schema, tuples, account), m)
  {
    forall o, r | Derivable(schema, tuples, account, o, r) ensures m(o, r) {
      var n: nat :| Stage(schema, tuples, account, n)(o, r);
      StageBelow(schema, tuples, account, m, n);
    }
  }

  // More tuples never take a permission away, whatever the schema.
  lemma MoreTuplesMorePermissions(schema: Schema, tuples: set<Tuple>, more: set<Tuple>, account: Object, obj: Object, name: Name)
    requires tuples <= more && Derivable(schema, tuples, account, obj, name)
    ensures Derivable(schema, more, account, obj, name)
  {
    var m := Derived(schema, more, account);
    forall o: Object, r: Name | Reads(tuples, account, m, schema(o.kind, r), o, r) ensures m(o, r) {
      ReadsGrows(tuples, more, account, m, m, schema(o.kind, r), o, r);
      FixedPoint(schema, more, account, o, r);
    }
    LeastFixedPoint(schema, tuples, account, m);
    assert Derived(schema, tuples, account)(obj, name);
  }
}
