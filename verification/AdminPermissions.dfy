/**
 Permission matrices, templates and the management guard: `src/lib/admin-permissions.ts`.
 A matrix maps a resource to the set of its granted actions; an absent resource is one the
 input does not mention.
 */
module AdminPermissions {
  import opened Wrappers

  datatype Resource =
    | Members | Reviews | Logs | Brands | Companies | Notifications | HomeAds | Events | Cycles
    | AdminManagement | GraduateVerifications | ProfileImages | MattermostSenders
    | MemberSignupRequests | NotificationTemplates

  datatype Action = Create | Read | Update | Delete

  type Matrix = map<Resource, set<Action>>

  /** `ADMIN_PERMISSION_RESOURCES`, in its order. */
  function Resources(): (rs: seq<Resource>)
    ensures |rs| == 15 && forall i :: 0 <= i < 15 ==> Position(rs[i]) == i
  {
    [Members, Reviews, Logs, Brands, Companies, Notifications, HomeAds, Events, Cycles,
     AdminManagement, GraduateVerifications, ProfileImages, MattermostSenders,
     MemberSignupRequests, NotificationTemplates]
  }

  function Position(r: Resource): (i: nat)
    ensures i < 15
  {
    match r
    case Members => 0 case Reviews => 1 case Logs => 2 case Brands => 3 case Companies => 4
    case Notifications => 5 case HomeAds => 6 case Events => 7 case Cycles => 8 case AdminManagement => 9
    case GraduateVerifications => 10 case ProfileImages => 11 case MattermostSenders => 12
    case MemberSignupRequests => 13 case NotificationTemplates => 14
  }

  lemma PositionIsInjective(r: Resource, other: Resource)
    requires Position(r) == Position(other)
    ensures r == other
  {
  }

  const ACTIONS: seq<Action> := [Create, Read, Update, Delete]

  const ALL: set<Action> := {Create, Read, Update, Delete}

  predicate Complete(m: Matrix) { forall r: Resource :: r in m }

  predicate Grants(m: Matrix, r: Resource, a: Action) { r in m && a in m[r] }

  /** What survives normalisation: log entries can only be read. */
  predicate Allowed(r: Resource, a: Action) { r == Logs ==> a == Read }

  /** The complete matrix that grants what the input grants, apart from writing logs. */
  ghost predicate IsNormalized(m: Matrix, input: Matrix) {
    Complete(m) && forall r: Resource, a: Action :: Grants(m, r, a) <==> Grants(input, r, a) && Allowed(r, a)
  }

  function Kept(r: Resource, granted: set<Action>): set<Action> { if r == Logs then granted * {Read} else granted }

  /** The set of granted actions of a resource. */
  function Row(input: Matrix, r: Resource): set<Action> { if r in input then input[r] else {} }

  function Normalized(input: Matrix): (m: Matrix)
    ensures IsNormalized(m, input)
  {
    map r: Resource | r in Everything() :: Kept(r, Row(input, r))
  }

  function Everything(): (all: set<Resource>)
    ensures forall r: Resource :: r in all
  {
    set r: Resource | Position(r) < 15
  }

  function EmptyMatrix(): Matrix { map r: Resource | r in Everything() :: {} }

  /** There is one normal form: two matrices normalise alike exactly when they grant alike. */
  lemma NormalFormIsUnique(m: Matrix, n: Matrix)
    ensures Normalized(m) == Normalized(n) <==>
      forall r: Resource, a: Action :: Allowed(r, a) ==> (Grants(m, r, a) <==> Grants(n, r, a))
  {
    var left, right := Normalized(m), Normalized(n);
    if forall r: Resource, a: Action :: Allowed(r, a) ==> (Grants(m, r, a) <==> Grants(n, r, a)) {
      forall r: Resource ensures left[r] == right[r] {
        forall a: Action ensures a in left[r] <==> a in right[r] {
          assert Grants(left, r, a) <==> Grants(right, r, a);
        }
      }
    } else {
      var r: Resource, a: Action :| Allowed(r, a) && Grants(m, r, a) != Grants(n, r, a);
      assert Grants(left, r, a) != Grants(right, r, a);
    }
  }

  /** `normalizeAdminPermissionMatrix`: a fresh matrix filled cell by cell, then the log rows cleared. */
  method Normalize(input: Matrix) returns (matrix: Matrix)
    ensures matrix == Normalized(input)
  {
    hide Resources, Position;
    matrix := EmptyMatrix();
    for i := 0 to 15
      invariant Complete(matrix)
      invariant forall r: Resource :: matrix[r] == if Position(r) < i then Row(input, r) else {}
    {
      var resource := Resources()[i];
      ghost var before := matrix;
      if resource in input {
        for j := 0 to 4
          invariant Complete(matrix) && matrix == before[resource := matrix[resource]]
          invariant matrix[resource] == FirstActions(input[resource], j)
        {
          var action := ACTIONS[j];
          var row := matrix[resource];
          NotYet(input[resource], j);
          matrix := matrix[resource := if action in input[resource] then row + {action} else row - {action}];
        }
        AllFour(input[resource]);
      }
      forall r: Resource ensures matrix[r] == if Position(r) < i + 1 then Row(input, r) else {} {
        if Position(r) == i { PositionIsInjective(r, resource); }
      }
    }
    matrix := matrix[Logs := matrix[Logs] - {Create}];
    matrix := matrix[Logs := matrix[Logs] - {Update}];
    matrix := matrix[Logs := matrix[Logs] - {Delete}];
    LogsCleared(Row(input, Logs));
  }

  /** The granted actions among the first `j` in the order of `ACTIONS`. */
  function FirstActions(granted: set<Action>, j: nat): set<Action>
    requires j <= 4
  {
    if j == 0 then {} else FirstActions(granted, j - 1) + if ACTIONS[j - 1] in granted then {ACTIONS[j - 1]} else {}
  }

  lemma NotYet(granted: set<Action>, j: nat)
    requires j < 4
    ensures ACTIONS[j] !in FirstActions(granted, j)
  {
    if j > 0 { assert FirstActions(granted, j) <= FirstActions(granted, j - 1) + {ACTIONS[j - 1]}; }
    if j > 1 { assert FirstActions(granted, j - 1) <= FirstActions(granted, j - 2) + {ACTIONS[j - 2]}; }
    if j > 2 { assert FirstActions(granted, 1) <= {Create}; }
  }

  lemma AllFour(granted: set<Action>)
    ensures FirstActions(granted, 4) == granted
  {
    assert FirstActions(granted, 1) == granted * {Create};
    assert FirstActions(granted, 2) == granted * {Create, Read};
    assert FirstActions(granted, 3) == granted * {Create, Read, Update};
    assert FirstActions(granted, 4) == granted * ALL;
    EveryAction(granted);
  }

  lemma EveryAction(granted: set<Action>)
    ensures granted <= ALL
  {
    forall a: Action | a in granted ensures a in ALL {
      match a { case Create => case Read => case Update => case Delete => }
    }
  }

  lemma LogsCleared(granted: set<Action>)
    ensures granted - {Create} - {Update} - {Delete} == granted * {Read}
  {
    EveryAction(granted);
  }

  predicate CanAdmin(matrix: Option<Matrix>, r: Resource, a: Action) {
    matrix.Some? && Grants(Normalized(matrix.value), r, a)
  }

  predicate IsPrivileged(matrix: Option<Matrix>) {
    CanAdmin(matrix, AdminManagement, Update) && CanAdmin(matrix, AdminManagement, Delete)
  }

  // ---- templates -------------------------------------------------------------------------------

  datatype TemplateKey = SuperAdmin | OperationsManager | RegionalPartnerManager | ContentManager | Support | ReadOnly

  const TEMPLATES: seq<TemplateKey> :=
    [SuperAdmin, OperationsManager, RegionalPartnerManager, ContentManager, Support, ReadOnly]

  function KeyText(t: TemplateKey): string {
    match t
    case SuperAdmin => "super_admin"
    case OperationsManager => "operations_manager"
    case RegionalPartnerManager => "regional_partner_manager"
    case ContentManager => "content_manager"
    case Support => "support"
    case ReadOnly => "readonly"
  }

  /** `findAdminPermissionTemplate`. */
  function FindTemplate(key: string): (t: Option<TemplateKey>)
    ensures t.Some? ==> KeyText(t.value) == key
  {
    if key == "super_admin" then Some(SuperAdmin)
    else if key == "operations_manager" then Some(OperationsManager)
    else if key == "regional_partner_manager" then Some(RegionalPartnerManager)
    else if key == "content_manager" then Some(ContentManager)
    else if key == "support" then Some(Support)
    else if key == "readonly" then Some(ReadOnly)
    else None
  }

  function TemplateInput(t: TemplateKey): Matrix {
    match t
    case SuperAdmin => map r: Resource | r in Everything() :: ALL
    case OperationsManager =>
      map[Members := ALL, Reviews := {Read, Update, Delete}, Logs := {Read}, Brands := ALL, Companies := ALL,
          Notifications := ALL, HomeAds := ALL, Events := ALL, Cycles := {Read, Update},
          GraduateVerifications := {Read, Update}, ProfileImages := {Read, Update}, MemberSignupRequests := {}]
    case RegionalPartnerManager =>
      map[Reviews := {Read}, Brands := {Create, Read, Update}, Companies := {Create, Read, Update}]
    case ContentManager =>
      map[Reviews := {Read, Update}, Logs := {Read}, Brands := ALL, HomeAds := ALL, Events := ALL]
    case Support =>
      map[Members := {Read, Update}, Reviews := {Read, Update}, Logs := {Read}, Brands := {Read},
          Companies := {Read}, Notifications := {Read}, Events := {Read}, GraduateVerifications := {Read, Update},
          ProfileImages := {Read, Update}, MemberSignupRequests := {}]
    case ReadOnly =>
      map r: Resource | r in Everything() ::
        if r == MattermostSenders || r == MemberSignupRequests || r == NotificationTemplates then {} else {Read}
  }

  function Permissions(t: TemplateKey): Matrix { Normalized(TemplateInput(t)) }

  /** Only the super admin template holds any management permission beyond reading. */
  lemma OnlySuperAdminManages(t: TemplateKey, a: Action)
    ensures CanAdmin(Some(Permissions(t)), AdminManagement, a) <==>
      t.SuperAdmin? || (t.ReadOnly? && a == Read)
  {
    hide Normalized;
    ManagementRow(t);
    assert Grants(Permissions(t), AdminManagement, a) <==> a in Row(TemplateInput(t), AdminManagement);
    NormalizedTwice(TemplateInput(t));
  }

  lemma ManagementRow(t: TemplateKey)
    ensures Row(TemplateInput(t), AdminManagement) == if t.SuperAdmin? then ALL else if t.ReadOnly? then {Read} else {}
  {
  }

  /** The templates that permit an action, resource by resource. */
  function Holders(r: Resource, a: Action): set<TemplateKey> {
    var (top, operations, regional) := (SuperAdmin, OperationsManager, RegionalPartnerManager);
    var (content, support, readonly) := (ContentManager, Support, ReadOnly);
    match r
    case Members =>
      if a == Read then {top, operations, support, readonly}
      else if a == Update then {top, operations, support} else {top, operations}
    case Reviews =>
      if a == Read then {top, operations, regional, content, support, readonly}
      else if a == Update then {top, operations, content, support} else if a == Delete then {top, operations} else {top}
    case Logs => if a == Read then {top, operations, content, support, readonly} else {}
    case Brands =>
      if a == Read then {top, operations, regional, content, support, readonly}
      else if a == Delete then {top, operations, content} else {top, operations, regional, content}
    case Companies =>
      if a == Read then {top, operations, regional, support, readonly}
      else if a == Delete then {top, operations} else {top, operations, regional}
    case Notifications => if a == Read then {top, operations, support, readonly} else {top, operations}
    case HomeAds => if a == Read then {top, operations, content, readonly} else {top, operations, content}
    case Events => if a == Read then {top, operations, content, support, readonly} else {top, operations, content}
    case Cycles => if a == Read then {top, operations, readonly} else if a == Update then {top, operations} else {top}
    case AdminManagement => if a == Read then {top, readonly} else {top}
    case GraduateVerifications =>
      if a == Read then {top, operations, support, readonly}
      else if a == Update then {top, operations, support} else {top}
    case ProfileImages =>
      if a == Read then {top, operations, support, readonly}
      else if a == Update then {top, operations, support} else {top}
    case MattermostSenders => {top}
    case MemberSignupRequests => {top}
    case NotificationTemplates => {top}
  }

  lemma KeysDiffer(t: TemplateKey, u: TemplateKey)
    ensures KeyText(t) == KeyText(u) <==> t == u
  {
    assert KeyText(SuperAdmin)[0] == 's' && KeyText(SuperAdmin)[2] == 'p' && KeyText(Support)[0] == 's';
    assert KeyText(SuperAdmin)[3] == 'e' && KeyText(Support)[3] == 'p';
    assert KeyText(OperationsManager)[0] == 'o' && KeyText(ContentManager)[0] == 'c';
    assert KeyText(RegionalPartnerManager)[0] == 'r' && KeyText(RegionalPartnerManager)[2] == 'g';
    assert KeyText(ReadOnly)[0] == 'r' && KeyText(ReadOnly)[2] == 'a';
  }

  /** Who may do what: the templates, read the other way round. */
  lemma TemplatesPermit(t: TemplateKey, r: Resource, a: Action)
    ensures CanAdmin(Some(Permissions(t)), r, a) <==> t in Holders(r, a)
  {
    NormalizedTwice(TemplateInput(t));
    RowsPermit(t, r, a);
    hide Normalized, TemplateInput, Holders;
    assert Grants(Permissions(t), r, a) <==> Grants(TemplateInput(t), r, a) && Allowed(r, a);
  }

  lemma RowsPermit(t: TemplateKey, r: Resource, a: Action)
    ensures Grants(TemplateInput(t), r, a) && Allowed(r, a) <==> t in Holders(r, a)
  {
    hide TemplateInput, Holders;
    match t
    case SuperAdmin => RowsOfSuperAdmin(r, a);
    case OperationsManager => RowsOfOperations(r, a);
    case RegionalPartnerManager => RowsOfRegional(r, a);
    case ContentManager => RowsOfContent(r, a);
    case Support => RowsOfSupport(r, a);
    case ReadOnly => RowsOfReadOnly(r, a);
  }

  lemma RowsOfSuperAdmin(r: Resource, a: Action)
    ensures Grants(TemplateInput(SuperAdmin), r, a) && Allowed(r, a) <==> SuperAdmin in Holders(r, a)
  {
  }

  lemma RowsOfOperations(r: Resource, a: Action)
    ensures Grants(TemplateInput(OperationsManager), r, a) && Allowed(r, a) <==> OperationsManager in Holders(r, a)
  {
  }

  lemma RowsOfRegional(r: Resource, a: Action)
    ensures Grants(TemplateInput(RegionalPartnerManager), r, a) && Allowed(r, a) <==>
      RegionalPartnerManager in Holders(r, a)
  {
  }

  lemma RowsOfContent(r: Resource, a: Action)
    ensures Grants(TemplateInput(ContentManager), r, a) && Allowed(r, a) <==> ContentManager in Holders(r, a)
  {
  }

  lemma RowsOfSupport(r: Resource, a: Action)
    ensures Grants(TemplateInput(Support), r, a) && Allowed(r, a) <==> Support in Holders(r, a)
  {
  }

  lemma RowsOfReadOnly(r: Resource, a: Action)
    ensures Grants(TemplateInput(ReadOnly), r, a) && Allowed(r, a) <==> ReadOnly in Holders(r, a)
  {
  }

  lemma NormalizedTwice(input: Matrix)
    ensures Normalized(Normalized(input)) == Normalized(input)
  {
  }

  // ---- the guard -------------------------------------------------------------------------------

  datatype Error =
    | LastPrivilegedAdmin | OwnUpdatePermission | UsernameMissing | TemplateUnknown | SuperAdminReserved
    | CampusMissing | MemberNotFound | AccountNotFound | SuperAdminNotRevocable | NotATemplate | WriteFailed

  /** `assertCanManageAdminPermissions`: the error it throws, if any. */
  function ManageError<Id(==)>(
    actor: Id, target: Id, nextIsActive: bool, nextPermissions: Matrix, activePrivileged: nat): Option<Error>
  {
    if activePrivileged <= 1 && actor == target && !(nextIsActive && IsPrivileged(Some(nextPermissions))) then
      Some(LastPrivilegedAdmin)
    else if actor == target && !CanAdmin(Some(nextPermissions), AdminManagement, Update) then
      Some(OwnUpdatePermission)
    else None
  }
}
