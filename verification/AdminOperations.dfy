/**
 What each operation of `src/lib/admin-accounts.ts` does, told from its inputs: which calls go through,
 why the others are refused, and how the target's account looks afterwards.
 */
module AdminOperations {
  import opened Wrappers
  import opened JsText
  import opened Campuses
  import opened AdminPermissions
  import opened AdminAccounts

  // ---- the words of the requirements -------------------------------------------------------------

  predicate IsTemplateText(key: string) {
    key == "super_admin" || key == "operations_manager" || key == "regional_partner_manager" ||
    key == "content_manager" || key == "support" || key == "readonly"
  }

  /** The keys name the six templates, and nothing else names any. */
  lemma TemplatesByKey(key: string)
    ensures FindTemplate(key).Some? <==> IsTemplateText(key)
    ensures FindTemplate("super_admin") == Some(SuperAdmin) && FindTemplate("support") == Some(Support)
    ensures FindTemplate("operations_manager") == Some(OperationsManager) && FindTemplate("readonly") == Some(ReadOnly)
    ensures FindTemplate("regional_partner_manager") == Some(RegionalPartnerManager)
    ensures FindTemplate("content_manager") == Some(ContentManager)
  {
  }

  predicate IsReserved(site: Site, loginId: string) { site.lower(Trim(loginId)) == "myknow" }

  /** Only a regional manager keeps campuses. */
  function CampusesUnder(key: string, given: seq<string>): seq<string> {
    if key == "regional_partner_manager" then NormalizeSlugs(given) else []
  }

  /** The account of the target after a write, as a reader gets it. */
  predicate AccountIs(site: Site, after: Profiles, id: MemberId, key: string, campuses: seq<string>, isActive: bool) {
    id in after && after[id].isActive == isActive && after[id].campuses == campuses &&
    KeyText(after[id].template) == key &&
    (id in site.members && site.members[id].loginId != "" ==>
       var account := AccountOf(site, after, id);
       var member := site.members[id];
       && account.Some? && account.value.loginId == member.loginId
       && (account.value.isActive <==> isActive && member.directoryActive && !member.deleted)
       && account.value.mustChangePassword == member.mustChangePassword
       && account.value.permissionVersion == after[id].version
       && KeyText(account.value.template) == key && account.value.campuses == campuses
       && account.value.permissions == Permissions(account.value.template))
  }

  /** One profile is written, with the next version number; all others stay. */
  predicate OnlyWrites(before: Profiles, after: Profiles, id: MemberId) {
    id in after && after == before[id := after[id]] &&
    after[id].version == if id in before then before[id].version + 1 else 1
  }

  lemma AccountAfter(site: Site, profiles: Profiles, c: Change)
    requires NormalizeSlugs(c.campuses) == c.campuses
    ensures var after := Applied(profiles, c);
      AccountIs(site, after, c.id, KeyText(c.template), c.campuses, c.isActive) && OnlyWrites(profiles, after, c.id)
  {
    hide Permissions, KeyText, NormalizeSlugs;
  }

  // ---- grants ----------------------------------------------------------------------------------------

  function GrantKey(templateKey: string): string { if Trim(templateKey) == "" then "readonly" else Trim(templateKey) }

  function GrantName(site: Site, username: string): string { site.lower(Trim(username)) }

  predicate GrantAccepted(site: Site, username: string, templateKey: string, campuses: seq<string>) {
    && GrantName(site, username) != ""
    && IsTemplateText(GrantKey(templateKey))
    && (GrantKey(templateKey) == "super_admin" ==> IsReserved(site, GrantName(site, username)))
    && (GrantKey(templateKey) == "regional_partner_manager" ==> NormalizeSlugs(campuses) != [])
    && site.findLive(GrantName(site, username)).Some?
  }

  /**
   A grant goes through exactly for the name of a live member and a known template, which is "readonly"
   when left blank, the super admin's only for the reserved name and a regional manager's only with a campus.
   Then that member's account has the template and is active. Who the target is, or was, does not matter.
   */
  lemma GrantMeans(
    site: Site, before: Profiles, after: Profiles, actor: MemberId, username: string, templateKey: string,
    campuses: seq<string>, writeOk: bool, error: Option<Error>)
    requires Performed(site, before, after, Grant(actor, username, templateKey, campuses), writeOk, error)
    ensures error.None? <==> GrantAccepted(site, username, templateKey, campuses) && writeOk
    ensures error.Some? ==> after == before
    ensures error.None? ==>
      var id := site.findLive(GrantName(site, username)).value;
      && OnlyWrites(before, after, id)
      && AccountIs(site, after, id, GrantKey(templateKey), CampusesUnder(GrantKey(templateKey), campuses), true)
    ensures var name, key := GrantName(site, username), GrantKey(templateKey);
      match error
      case None => true
      case Some(UsernameMissing) => name == ""
      case Some(TemplateUnknown) => name != "" && !IsTemplateText(key)
      case Some(SuperAdminReserved) => name != "" && key == "super_admin" && !IsReserved(site, name)
      case Some(CampusMissing) => name != "" && key == "regional_partner_manager" && NormalizeSlugs(campuses) == []
      case Some(MemberNotFound) => site.findLive(name).None?
      case Some(WriteFailed) => GrantAccepted(site, username, templateKey, campuses) && !writeOk
      case _ => false
  {
    hide NormalizeSlugs, Trim, AccountIs, OnlyWrites, Applied;
    TemplatesByKey(GrantKey(templateKey));
    var outcome := GrantOutcome(site, username, templateKey, campuses);
    if outcome.Ok? {
      SlugsStayNormal(campuses);
      AccountAfter(site, before, outcome.value);
    }
  }

  lemma SlugsStayNormal(campuses: seq<string>)
    ensures NormalizeSlugs(NormalizeSlugs(campuses)) == NormalizeSlugs(campuses) && NormalizeSlugs([]) == []
  {
    NormalizeTwice(campuses);
    NormalizeNothing();
  }

  // ---- templates ---------------------------------------------------------------------------------------

  /** The campuses handed in, or those held before when none were. */
  function GivenCampuses(profiles: Profiles, target: MemberId, campuses: Option<seq<string>>): seq<string> {
    match campuses
    case Some(given) => given
    case None => if target in profiles then profiles[target].campuses else []
  }

  predicate HasAccount(site: Site, profiles: Profiles, id: MemberId) {
    id in profiles && id in site.members && site.members[id].loginId != ""
  }

  predicate TemplateAccepted(
    site: Site, profiles: Profiles, actor: MemberId, target: MemberId, key: string, campuses: Option<seq<string>>)
  {
    && HasAccount(site, profiles, target)
    && IsTemplateText(key)
    && (key == "super_admin" ==> IsReserved(site, site.members[target].loginId))
    && (key == "regional_partner_manager" ==> NormalizeSlugs(GivenCampuses(profiles, target, campuses)) != [])
    && (actor == target ==> key == "super_admin")
  }

  /** The guard on oneself: an active super admin is the only thing one may turn oneself into. */
  lemma GuardMeans(actor: MemberId, target: MemberId, t: TemplateKey, count: nat)
    ensures ManageError(actor, target, true, Permissions(t), count) ==
      if actor != target || t.SuperAdmin? then None
      else if count <= 1 then Some(LastPrivilegedAdmin) else Some(OwnUpdatePermission)
  {
    OnlySuperAdminManages(t, Update);
    OnlySuperAdminManages(t, Delete);
    hide CanAdmin;
  }

  lemma CampusesOfAccount(site: Site, profiles: Profiles, id: MemberId)
    ensures AccountOf(site, profiles, id).Some? <==> HasAccount(site, profiles, id)
    ensures HasAccount(site, profiles, id) ==>
      var account := AccountOf(site, profiles, id).value;
      && account.campuses == NormalizeSlugs(profiles[id].campuses) && account.loginId == site.members[id].loginId
      && account.template == profiles[id].template && account.permissions == Permissions(profiles[id].template)
  {
  }

  /**
   A template change goes through exactly for an existing account and a known template, the super admin's
   only for the reserved login, a regional manager's only with a campus, and on oneself only super admin.
   Then the account has the template, is active, and has the campuses handed in, or its own when none
   were, if the template keeps campuses at all.
   */
  lemma TemplateMeans(
    site: Site, before: Profiles, after: Profiles, actor: MemberId, target: MemberId, key: string,
    campuses: Option<seq<string>>, writeOk: bool, error: Option<Error>)
    requires Performed(site, before, after, ApplyTemplate(actor, target, key, campuses), writeOk, error)
    ensures error.None? <==> TemplateAccepted(site, before, actor, target, key, campuses) && writeOk
    ensures error.Some? ==> after == before
    ensures error.None? ==>
      && OnlyWrites(before, after, target)
      && AccountIs(site, after, target, key, CampusesUnder(key, GivenCampuses(before, target, campuses)), true)
    ensures match error
      case None => true
      case Some(AccountNotFound) => !HasAccount(site, before, target)
      case Some(TemplateUnknown) => HasAccount(site, before, target) && !IsTemplateText(key)
      case Some(SuperAdminReserved) =>
        HasAccount(site, before, target) && key == "super_admin" && !IsReserved(site, site.members[target].loginId)
      case Some(CampusMissing) =>
        HasAccount(site, before, target) && key == "regional_partner_manager" &&
        NormalizeSlugs(GivenCampuses(before, target, campuses)) == []
      case Some(LastPrivilegedAdmin) =>
        actor == target && key != "super_admin" && |PrivilegedAdmins(site, before)| <= 1
      case Some(OwnUpdatePermission) =>
        actor == target && key != "super_admin" && |PrivilegedAdmins(site, before)| > 1
      case Some(WriteFailed) => TemplateAccepted(site, before, actor, target, key, campuses) && !writeOk
      case _ => false
  {
    hide NormalizeSlugs, AccountIs, OnlyWrites, Applied, PrivilegedAdmins, AccountOf, ManageError, Permissions;
    TemplatesByKey(key);
    CampusesOfAccount(site, before, target);
    SlugsStayNormal(GivenCampuses(before, target, campuses));
    if FindTemplate(key).Some? {
      GuardMeans(actor, target, FindTemplate(key).value, |PrivilegedAdmins(site, before)|);
    }
    var outcome := TemplateOutcome(site, before, actor, target, key, campuses);
    if outcome.Ok? {
      AccountAfter(site, before, outcome.value);
    }
  }

  // ---- activation and deactivation -----------------------------------------------------------------------

  predicate StatusAccepted(site: Site, profiles: Profiles, actor: MemberId, target: MemberId, isActive: bool) {
    && HasAccount(site, profiles, target)
    && (actor == target ==> isActive && profiles[target].template.SuperAdmin?)
    && (!isActive ==> !IsReserved(site, site.members[target].loginId))
  }

  /**
   A status change goes through exactly for an existing account, never for deactivating oneself or the
   reserved login. The template stays; the campuses stay when activating and go when deactivating.
   */
  lemma StatusMeans(
    site: Site, before: Profiles, after: Profiles, actor: MemberId, target: MemberId, isActive: bool, writeOk: bool,
    error: Option<Error>)
    requires Performed(site, before, after, SetStatus(actor, target, isActive), writeOk, error)
    ensures error.None? <==> StatusAccepted(site, before, actor, target, isActive) && writeOk
    ensures error.Some? ==> after == before
    ensures error.None? ==>
      var campuses := if isActive then NormalizeSlugs(before[target].campuses) else [];
      && OnlyWrites(before, after, target)
      && AccountIs(site, after, target, KeyText(before[target].template), campuses, isActive)
    ensures match error
      case None => true
      case Some(AccountNotFound) => !HasAccount(site, before, target)
      case Some(LastPrivilegedAdmin) => actor == target && |PrivilegedAdmins(site, before)| <= 1
      case Some(OwnUpdatePermission) => actor == target && |PrivilegedAdmins(site, before)| > 1
      case Some(SuperAdminNotRevocable) =>
        actor != target && !isActive && HasAccount(site, before, target) &&
        IsReserved(site, site.members[target].loginId)
      case Some(WriteFailed) => StatusAccepted(site, before, actor, target, isActive) && !writeOk
      case _ => false
  {
    hide NormalizeSlugs, AccountIs, OnlyWrites, Applied, PrivilegedAdmins, AccountOf, ManageError, Permissions;
    hide Normalized;
    CampusesOfAccount(site, before, target);
    if HasAccount(site, before, target) {
      SlugsStayNormal(before[target].campuses);
      GuardMeans(actor, target, before[target].template, |PrivilegedAdmins(site, before)|);
      GuardOnNothing(actor, target, |PrivilegedAdmins(site, before)|);
    }
    var outcome := StatusOutcome(site, before, actor, target, isActive);
    if outcome.Ok? {
      AccountAfter(site, before, outcome.value);
    }
  }

  /** Taking all permissions away from oneself is refused. */
  lemma GuardOnNothing(actor: MemberId, target: MemberId, count: nat)
    ensures ManageError(actor, target, false, Normalized(map[]), count) ==
      if actor != target then None else if count <= 1 then Some(LastPrivilegedAdmin) else Some(OwnUpdatePermission)
  {
    assert !Grants(Normalized(map[]), AdminManagement, Update);
    NormalizedTwice(map[]);
  }

  // ---- a matrix from the form --------------------------------------------------------------------------------

  /** The matrix grants what the template grants, log writing aside. */
  ghost predicate IsMatrixOf(matrix: Matrix, t: TemplateKey) {
    forall r: Resource, a: Action :: Allowed(r, a) ==> (Grants(matrix, r, a) <==> t in Holders(r, a))
  }

  lemma MatchesExactly(matrix: Matrix, t: TemplateKey)
    ensures Normalized(Permissions(t)) == Normalized(matrix) <==> IsMatrixOf(matrix, t)
  {
    hide Holders, Permissions;
    NormalFormIsUnique(Permissions(t), matrix);
    forall r: Resource, a: Action | Allowed(r, a) ensures Grants(Permissions(t), r, a) <==> t in Holders(r, a) {
      TemplatesPermit(t, r, a);
      assert Grants(Normalized(Permissions(t)), r, a) <==> Grants(Permissions(t), r, a);
    }
  }

  /** No two templates grant alike. */
  lemma TemplatesDiffer(matrix: Matrix, t: TemplateKey, u: TemplateKey)
    requires IsMatrixOf(matrix, t) && IsMatrixOf(matrix, u)
    ensures t == u
  {
    hide Grants;
    assert forall r: Resource, a: Action :: Allowed(r, a) ==> (t in Holders(r, a) <==> u in Holders(r, a));
    assert Allowed(Cycles, Delete) && Allowed(Cycles, Update) && Allowed(AdminManagement, Read);
    assert Allowed(HomeAds, Create) && Allowed(Members, Update);
  }

  lemma {:induction false} MatchingIs(matrix: Matrix, i: nat)
    requires i <= |TEMPLATES|
    ensures match MatchingTemplate(matrix, i)
      case Some(t) => IsMatrixOf(matrix, t)
      case None => forall j :: i <= j < |TEMPLATES| ==> !IsMatrixOf(matrix, TEMPLATES[j])
    decreases |TEMPLATES| - i
  {
    hide Normalized, Permissions, IsMatrixOf;
    if i == |TEMPLATES| {
    } else {
      MatchesExactly(matrix, TEMPLATES[i]);
      MatchingIs(matrix, i + 1);
    }
  }

  /** The guard asks for the two management actions, of oneself only. */
  lemma GuardOnMatrix(actor: MemberId, target: MemberId, isActive: bool, matrix: Matrix, count: nat)
    ensures var update := Grants(matrix, AdminManagement, Update);
      ManageError(actor, target, isActive, matrix, count) ==
        if actor != target then None
        else if count <= 1 && !(isActive && update && Grants(matrix, AdminManagement, Delete))
        then Some(LastPrivilegedAdmin)
        else if !update then Some(OwnUpdatePermission) else None
  {
  }

  predicate IsActiveAccount(site: Site, profiles: Profiles, id: MemberId)
    requires HasAccount(site, profiles, id)
  {
    profiles[id].isActive && !site.members[id].deleted && site.members[id].directoryActive
  }

  /** The last privileged administrator keeps both management actions, and everybody else at least updating. */
  predicate LeavesOneself(site: Site, profiles: Profiles, actor: MemberId, target: MemberId, matrix: Matrix)
    requires HasAccount(site, profiles, target)
  {
    actor == target ==>
      Grants(matrix, AdminManagement, Update) &&
      (|PrivilegedAdmins(site, profiles)| <= 1 ==>
         IsActiveAccount(site, profiles, target) && Grants(matrix, AdminManagement, Delete))
  }

  /** The grid of a template that could also be applied by its key, with the campuses held before. */
  ghost predicate PermissionsAccepted(
    site: Site, profiles: Profiles, actor: MemberId, target: MemberId, matrix: Matrix, t: TemplateKey)
  {
    IsMatrixOf(matrix, t) && TemplateAccepted(site, profiles, actor, target, KeyText(t), None) &&
    LeavesOneself(site, profiles, actor, target, matrix)
  }

  lemma ActiveAccount(site: Site, profiles: Profiles, id: MemberId)
    requires HasAccount(site, profiles, id)
    ensures AccountOf(site, profiles, id).value.isActive <==> IsActiveAccount(site, profiles, id)
  {
  }

  lemma EveryTemplateListed(t: TemplateKey)
    ensures t in TEMPLATES
  {
    match t
    case SuperAdmin => assert TEMPLATES[0] == t;
    case OperationsManager => assert TEMPLATES[1] == t;
    case RegionalPartnerManager => assert TEMPLATES[2] == t;
    case ContentManager => assert TEMPLATES[3] == t;
    case Support => assert TEMPLATES[4] == t;
    case ReadOnly => assert TEMPLATES[5] == t;
  }

  /** Applying a template with the campuses the account shows is applying it with those it holds. */
  lemma TemplateWithOwnCampuses(
    site: Site, profiles: Profiles, actor: MemberId, target: MemberId, t: TemplateKey, own: seq<string>)
    requires HasAccount(site, profiles, target) && own == NormalizeSlugs(profiles[target].campuses)
    ensures var outcome := TemplateOutcome(site, profiles, actor, target, KeyText(t), Some(own));
      && (outcome.Ok? <==> TemplateAccepted(site, profiles, actor, target, KeyText(t), None))
      && (outcome.Err? ==>
            match outcome.error
            case SuperAdminReserved => t.SuperAdmin? && !IsReserved(site, site.members[target].loginId)
            case CampusMissing => t.RegionalPartnerManager? && NormalizeSlugs(profiles[target].campuses) == []
            case _ => actor == target && !t.SuperAdmin?)
      && (outcome.Ok? ==>
            var after := Applied(profiles, outcome.value);
            OnlyWrites(profiles, after, target) &&
            AccountIs(site, after, target, KeyText(t), CampusesUnder(KeyText(t), profiles[target].campuses), true))
  {
    hide NormalizeSlugs, AccountIs, OnlyWrites, Applied, PrivilegedAdmins, AccountOf, ManageError, Permissions, KeyText;
    hide TemplateOutcome;
    var op := ApplyTemplate(actor, target, KeyText(t), Some(own));
    var outcome := TemplateOutcome(site, profiles, actor, target, KeyText(t), Some(own));
    SlugsStayNormal(profiles[target].campuses);
    KnownText(t);
    var error := if outcome.Err? then Some(outcome.error) else None;
    TemplateMeans(site, profiles, Next(site, profiles, op, true), actor, target, KeyText(t), Some(own), true, error);
  }

  lemma KnownText(t: TemplateKey)
    ensures IsTemplateText(KeyText(t)) && (KeyText(t) == "super_admin" <==> t.SuperAdmin?)
    ensures KeyText(t) == "regional_partner_manager" <==> t.RegionalPartnerManager?
  {
    KeysDiffer(t, SuperAdmin);
    KeysDiffer(t, RegionalPartnerManager);
  }

  /**
   Saving a permission grid goes through exactly when the grid is, log writing aside, that of a template
   which could be applied by its key; it does then what applying the template with the held campuses does.
   */
  lemma PermissionsMean(
    site: Site, before: Profiles, after: Profiles, actor: MemberId, target: MemberId, matrix: Matrix, writeOk: bool,
    error: Option<Error>)
    requires Performed(site, before, after, SetPermissions(actor, target, matrix), writeOk, error)
    ensures error.None? <==> writeOk && exists t :: PermissionsAccepted(site, before, actor, target, matrix, t)
    ensures error.Some? ==> after == before
    ensures error.None? ==> forall t :: IsMatrixOf(matrix, t) ==>
      && OnlyWrites(before, after, target)
      && AccountIs(site, after, target, KeyText(t), CampusesUnder(KeyText(t), before[target].campuses), true)
    ensures match error
      case None => true
      case Some(AccountNotFound) => !HasAccount(site, before, target)
      case Some(LastPrivilegedAdmin) =>
        HasAccount(site, before, target) && !LeavesOneself(site, before, actor, target, matrix) &&
        |PrivilegedAdmins(site, before)| <= 1
      case Some(OwnUpdatePermission) =>
        HasAccount(site, before, target) && actor == target && !Grants(matrix, AdminManagement, Update) &&
        |PrivilegedAdmins(site, before)| > 1
      case Some(NotATemplate) => forall t :: !IsMatrixOf(matrix, t)
      case Some(SuperAdminReserved) =>
        HasAccount(site, before, target) && IsMatrixOf(matrix, SuperAdmin) &&
        !IsReserved(site, site.members[target].loginId)
      case Some(CampusMissing) =>
        HasAccount(site, before, target) && IsMatrixOf(matrix, RegionalPartnerManager) &&
        NormalizeSlugs(before[target].campuses) == []
      case Some(WriteFailed) => !writeOk && exists t :: PermissionsAccepted(site, before, actor, target, matrix, t)
      case _ => false
  {
    hide NormalizeSlugs, AccountIs, OnlyWrites, Applied, PrivilegedAdmins, AccountOf, ManageError, Permissions, KeyText;
    hide IsMatrixOf, MatchingTemplate, TemplateOutcome, IsPrivileged, CanAdmin, CampusesUnder;
    CampusesOfAccount(site, before, target);
    if HasAccount(site, before, target) {
      var account, template := AccountOf(site, before, target).value, MatchingTemplate(matrix, 0);
      GuardOnMatrix(actor, target, account.isActive, matrix, |PrivilegedAdmins(site, before)|);
      ActiveAccount(site, before, target);
      MatchingIs(matrix, 0);
      if template.Some? {
        var t := template.value;
        forall u | IsMatrixOf(matrix, u) ensures u == t { TemplatesDiffer(matrix, u, t); }
        ManagesAsMatrix(matrix, t);
        TemplateWithOwnCampuses(site, before, actor, target, t, account.campuses);
        assert PermissionsAccepted(site, before, actor, target, matrix, t) <==>
          TemplateAccepted(site, before, actor, target, KeyText(t), None) &&
          LeavesOneself(site, before, actor, target, matrix);
      } else {
        forall t ensures !IsMatrixOf(matrix, t) {
          EveryTemplateListed(t);
          var j :| 0 <= j < |TEMPLATES| && TEMPLATES[j] == t;
        }
      }
    }
  }

  lemma ManagesAsMatrix(matrix: Matrix, t: TemplateKey)
    requires IsMatrixOf(matrix, t)
    ensures Grants(matrix, AdminManagement, Update) <==> t.SuperAdmin?
  {
    assert Allowed(AdminManagement, Update);
  }
}
