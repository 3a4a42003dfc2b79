/**
 Administrator profiles and the operations that change them: `src/lib/admin-accounts.ts`,
 called one after the other with uncached reads, behind the permission checks of
 `src/app/admin/(protected)/_actions/admin-account-actions.ts`.
 */
module AdminAccounts {
  import opened Wrappers
  import opened JsText
  import opened Campuses
  import opened AdminPermissions

  type MemberId = nat

  datatype Member = Member(loginId: string, mustChangePassword: bool, deleted: bool, directoryActive: bool)

  /** The rows this component only reads, the lower-casing of the host and the lookup of live members. */
  datatype Site = Site(members: map<MemberId, Member>, lower: string -> string, findLive: string -> Option<MemberId>)

  datatype Profile = Profile(template: TemplateKey, campuses: seq<string>, isActive: bool, version: nat)

  type Profiles = map<MemberId, Profile>

  datatype Account = Account(
    loginId: string, isActive: bool, mustChangePassword: bool, permissionVersion: nat,
    template: TemplateKey, campuses: seq<string>, permissions: Matrix)

  /** A lookup by user name only finds live members of that name. */
  ghost predicate ValidSite(site: Site) {
    forall name :: site.findLive(name).Some? ==>
      var id := site.findLive(name).value;
      id in site.members && site.members[id].loginId == name && site.members[id].directoryActive &&
        !site.members[id].deleted
  }

  function NormalizeUsername(site: Site, value: string): string { site.lower(Trim(value)) }

  predicate IsSuperLogin(site: Site, loginId: string) { NormalizeUsername(site, loginId) == "myknow" }

  /** `getAdminAccountById`, through `mapAdminProfile`. */
  function AccountOf(site: Site, profiles: Profiles, id: MemberId): Option<Account> {
    if id !in profiles || id !in site.members || site.members[id].loginId == "" then None
    else
      var profile, member := profiles[id], site.members[id];
      Some(Account(
        member.loginId, profile.isActive && !member.deleted && member.directoryActive, member.mustChangePassword,
        profile.version, profile.template, NormalizeSlugs(profile.campuses), Permissions(profile.template)))
  }

  predicate IsActivePrivileged(site: Site, profiles: Profiles, id: MemberId) {
    var account := AccountOf(site, profiles, id);
    account.Some? && account.value.isActive && IsPrivileged(Some(account.value.permissions))
  }

  /** The accounts `countActivePrivilegedAdmins` counts. */
  function PrivilegedAdmins(site: Site, profiles: Profiles): set<MemberId> {
    set id | id in profiles && IsActivePrivileged(site, profiles, id)
  }

  // ---- outcomes of the operations --------------------------------------------------------------

  datatype Change = Change(id: MemberId, template: TemplateKey, campuses: seq<string>, isActive: bool)

  function NextVersion(profiles: Profiles, id: MemberId): nat {
    (if id in profiles then profiles[id].version else 0) + 1
  }

  function Applied(profiles: Profiles, c: Change): Profiles {
    profiles[c.id := Profile(c.template, c.campuses, c.isActive, NextVersion(profiles, c.id))]
  }

  function DefaultCampuses(template: TemplateKey, requested: seq<string>): seq<string> {
    if template.RegionalPartnerManager? then NormalizeSlugs(requested) else []
  }

  function GrantOutcome(
    site: Site, username: string, templateKey: string, campuses: seq<string>): Result<Change, Error>
  {
    var name := NormalizeUsername(site, username);
    var template := FindTemplate(if Trim(templateKey) == "" then "readonly" else Trim(templateKey));
    if name == "" then Err(UsernameMissing)
    else if template.None? then Err(TemplateUnknown)
    else if template.value.SuperAdmin? && !IsSuperLogin(site, name) then Err(SuperAdminReserved)
    else if template.value.RegionalPartnerManager? && DefaultCampuses(template.value, campuses) == [] then
      Err(CampusMissing)
    else if site.findLive(name).None? then Err(MemberNotFound)
    else Ok(Change(site.findLive(name).value, template.value, DefaultCampuses(template.value, campuses), true))
  }

  function StatusOutcome(
    site: Site, profiles: Profiles, actor: MemberId, target: MemberId, isActive: bool): Result<Change, Error>
  {
    var account := AccountOf(site, profiles, target);
    if account.None? then Err(AccountNotFound)
    else
      var next := if isActive then account.value.permissions else Normalized(map[]);
      var denied := ManageError(actor, target, isActive, next, |PrivilegedAdmins(site, profiles)|);
      if denied.Some? then Err(denied.value)
      else if IsSuperLogin(site, account.value.loginId) && !isActive then Err(SuperAdminNotRevocable)
      else Ok(Change(target, account.value.template, if isActive then account.value.campuses else [], isActive))
  }

  function TemplateOutcome(
    site: Site, profiles: Profiles, actor: MemberId, target: MemberId, templateKey: string,
    campuses: Option<seq<string>>)
    : Result<Change, Error>
  {
    var account := AccountOf(site, profiles, target);
    var template := FindTemplate(templateKey);
    if account.None? then Err(AccountNotFound)
    else if template.None? then Err(TemplateUnknown)
    else if template.value.SuperAdmin? && !IsSuperLogin(site, account.value.loginId) then Err(SuperAdminReserved)
    else
      var slugs := DefaultCampuses(template.value, if campuses.Some? then campuses.value else account.value.campuses);
      if template.value.RegionalPartnerManager? && slugs == [] then Err(CampusMissing)
      else
        var denied := ManageError(actor, target, true, Permissions(template.value), |PrivilegedAdmins(site, profiles)|);
        if denied.Some? then Err(denied.value) else Ok(Change(target, template.value, slugs, true))
  }

  /** The first template from position `i` on whose normal form is that of the matrix. */
  function MatchingTemplate(matrix: Matrix, i: nat): Option<TemplateKey>
    requires i <= |TEMPLATES|
    decreases |TEMPLATES| - i
  {
    if i == |TEMPLATES| then None
    else if Normalized(Permissions(TEMPLATES[i])) == Normalized(matrix) then Some(TEMPLATES[i])
    else MatchingTemplate(matrix, i + 1)
  }

  function PermissionsOutcome(
    site: Site, profiles: Profiles, actor: MemberId, target: MemberId, matrix: Matrix): Result<Change, Error>
  {
    var account := AccountOf(site, profiles, target);
    if account.None? then Err(AccountNotFound)
    else
      var denied := ManageError(actor, target, account.value.isActive, matrix, |PrivilegedAdmins(site, profiles)|);
      var template := MatchingTemplate(matrix, 0);
      if denied.Some? then Err(denied.value)
      else if template.None? then Err(NotATemplate)
      else TemplateOutcome(site, profiles, actor, target, KeyText(template.value), Some(account.value.campuses))
  }

  datatype Op =
    | Grant(actor: MemberId, username: string, templateKey: string, grantCampuses: seq<string>)
    | SetStatus(actor: MemberId, target: MemberId, isActive: bool)
    | SetPermissions(actor: MemberId, target: MemberId, matrix: Matrix)
    | ApplyTemplate(actor: MemberId, target: MemberId, key: string, campuses: Option<seq<string>>)

  function Outcome(site: Site, profiles: Profiles, op: Op): Result<Change, Error> {
    match op
    case Grant(_, username, templateKey, campuses) => GrantOutcome(site, username, templateKey, campuses)
    case SetStatus(actor, target, isActive) => StatusOutcome(site, profiles, actor, target, isActive)
    case SetPermissions(actor, target, matrix) => PermissionsOutcome(site, profiles, actor, target, matrix)
    case ApplyTemplate(actor, target, key, campuses) => TemplateOutcome(site, profiles, actor, target, key, campuses)
  }

  /** The profiles after an operation whose write succeeds or fails. */
  function Next(site: Site, profiles: Profiles, op: Op, writeOk: bool): Profiles {
    var outcome := Outcome(site, profiles, op);
    if outcome.Ok? && writeOk then Applied(profiles, outcome.value) else profiles
  }

  /** What an operation reports and leaves behind. */
  predicate Performed(site: Site, before: Profiles, after: Profiles, op: Op, writeOk: bool, error: Option<Error>) {
    var outcome := Outcome(site, before, op);
    && after == Next(site, before, op, writeOk)
    && error == if outcome.Err? then Some(outcome.error) else if writeOk then None else Some(WriteFailed)
  }

  // ---- the store -------------------------------------------------------------------------------

  class AdminStore {
    const site: Site
    var profiles: Profiles

    constructor (site: Site, profiles: Profiles)
      ensures this.site == site && this.profiles == profiles
    {
      this.site, this.profiles := site, profiles;
    }

    function CountActivePrivilegedAdmins(): nat
      reads this
    {
      |PrivilegedAdmins(site, profiles)|
    }

    /** `persistAdminProfile`; `writeOk` is the database's answer. */
    method PersistProfile(c: Change, writeOk: bool) returns (error: Option<Error>)
      modifies this
      ensures profiles == if writeOk then Applied(old(profiles), c) else old(profiles)
      ensures error == if writeOk then None else Some(WriteFailed)
    {
      var nextVersion := 1;
      if c.id in profiles {
        nextVersion := profiles[c.id].version + 1;
      }
      if !writeOk {
        return Some(WriteFailed);
      }
      profiles := profiles[c.id := Profile(c.template, c.campuses, c.isActive, nextVersion)];
      return None;
    }

    method GrantMember(actor: MemberId, username: string, templateKey: string, campuses: seq<string>, writeOk: bool)
      returns (error: Option<Error>)
      modifies this
      ensures Performed(site, old(profiles), profiles, Grant(actor, username, templateKey, campuses), writeOk, error)
    {
      var name := NormalizeUsername(site, username);
      if name == "" {
        return Some(UsernameMissing);
      }
      var key := Trim(templateKey);
      if key == "" {
        key := "readonly";
      }
      var template := FindTemplate(key);
      if template.None? {
        return Some(TemplateUnknown);
      }
      if template.value.SuperAdmin? && !IsSuperLogin(site, name) {
        return Some(SuperAdminReserved);
      }
      var slugs := DefaultCampuses(template.value, campuses);
      if template.value.RegionalPartnerManager? && slugs == [] {
        return Some(CampusMissing);
      }
      var member := site.findLive(name);
      if member.None? {
        return Some(MemberNotFound);
      }
      error := PersistProfile(Change(member.value, template.value, slugs, true), writeOk);
    }

    method UpdateStatus(actor: MemberId, target: MemberId, isActive: bool, writeOk: bool) returns (error: Option<Error>)
      modifies this
      ensures Performed(site, old(profiles), profiles, SetStatus(actor, target, isActive), writeOk, error)
    {
      var account := AccountOf(site, profiles, target);
      if account.None? {
        return Some(AccountNotFound);
      }
      var next := account.value.permissions;
      if !isActive {
        next := Normalize(map[]);
      }
      var denied := ManageError(actor, target, isActive, next, CountActivePrivilegedAdmins());
      if denied.Some? {
        return denied;
      }
      if IsSuperLogin(site, account.value.loginId) && !isActive {
        return Some(SuperAdminNotRevocable);
      }
      var slugs := if isActive then account.value.campuses else [];
      error := PersistProfile(Change(target, account.value.template, slugs, isActive), writeOk);
    }

    method UpdatePermissions(actor: MemberId, target: MemberId, matrix: Matrix, writeOk: bool)
      returns (error: Option<Error>)
      modifies this
      ensures Performed(site, old(profiles), profiles, SetPermissions(actor, target, matrix), writeOk, error)
    {
      hide AccountOf, ManageError, MatchingTemplate, TemplateOutcome, Applied, PrivilegedAdmins;
      var account := AccountOf(site, profiles, target);
      if account.None? {
        return Some(AccountNotFound);
      }
      var denied := ManageError(actor, target, account.value.isActive, matrix, CountActivePrivilegedAdmins());
      if denied.Some? {
        return denied;
      }
      var template := MatchingTemplate(matrix, 0);
      if template.None? {
        return Some(NotATemplate);
      }
      error := ApplyPermissionTemplate(actor, target, KeyText(template.value), Some(account.value.campuses), writeOk);
    }

    method ApplyPermissionTemplate(
      actor: MemberId, target: MemberId, templateKey: string, campuses: Option<seq<string>>, writeOk: bool)
      returns (error: Option<Error>)
      modifies this
      ensures Performed(
        site, old(profiles), profiles, ApplyTemplate(actor, target, templateKey, campuses), writeOk, error)
    {
      var account := AccountOf(site, profiles, target);
      if account.None? {
        return Some(AccountNotFound);
      }
      var template := FindTemplate(templateKey);
      if template.None? {
        return Some(TemplateUnknown);
      }
      if template.value.SuperAdmin? && !IsSuperLogin(site, account.value.loginId) {
        return Some(SuperAdminReserved);
      }
      var requested := if campuses.Some? then campuses.value else account.value.campuses;
      var slugs := DefaultCampuses(template.value, requested);
      if template.value.RegionalPartnerManager? && slugs == [] {
        return Some(CampusMissing);
      }
      var denied := ManageError(actor, target, true, Permissions(template.value), CountActivePrivilegedAdmins());
      if denied.Some? {
        return denied;
      }
      error := PersistProfile(Change(target, template.value, slugs, true), writeOk);
    }
  }

  // ---- one step --------------------------------------------------------------------------------

  function Needed(op: Op): Action {
    match op
    case Grant(_, _, _, _) => Create
    case SetStatus(_, _, _) => Delete
    case SetPermissions(_, _, _) => Update
    case ApplyTemplate(_, _, _, _) => Update
  }

  /** `requireAdminPermission`: the session's account is active, set up and holds the permission. */
  predicate Authorised(site: Site, profiles: Profiles, op: Op) {
    var account := AccountOf(site, profiles, op.actor);
    account.Some? && account.value.isActive && !account.value.mustChangePassword &&
    CanAdmin(Some(account.value.permissions), AdminManagement, Needed(op))
  }

  lemma PrivilegedIsSuperAdmin(site: Site, profiles: Profiles, id: MemberId)
    ensures IsActivePrivileged(site, profiles, id) <==>
      var account := AccountOf(site, profiles, id);
      account.Some? && account.value.isActive && account.value.template.SuperAdmin?
  {
    hide CanAdmin;
    if id in profiles {
      OnlySuperAdminManages(profiles[id].template, Update);
      OnlySuperAdminManages(profiles[id].template, Delete);
    }
  }

  lemma AuthorisedIsPrivileged(site: Site, profiles: Profiles, op: Op)
    requires Authorised(site, profiles, op)
    ensures op.actor in PrivilegedAdmins(site, profiles)
  {
    hide CanAdmin, IsPrivileged;
    OnlySuperAdminManages(profiles[op.actor].template, Needed(op));
    PrivilegedIsSuperAdmin(site, profiles, op.actor);
  }

  /** A member's standing depends on nothing but the member's own profile. */
  lemma OthersUnaffected(site: Site, before: Profiles, after: Profiles, id: MemberId)
    requires id in before <==> id in after
    requires id in before ==> before[id] == after[id]
    ensures AccountOf(site, before, id) == AccountOf(site, after, id)
    ensures IsActivePrivileged(site, before, id) <==> IsActivePrivileged(site, after, id)
  {
  }

  /** What a change does to the privileged accounts: its own target joins or leaves, nothing else. */
  lemma PrivilegedAfter(site: Site, profiles: Profiles, c: Change)
    ensures var after := Applied(profiles, c);
      PrivilegedAdmins(site, after) - {c.id} == PrivilegedAdmins(site, profiles) - {c.id}
    ensures c.id in PrivilegedAdmins(site, Applied(profiles, c)) <==>
      var account := AccountOf(site, Applied(profiles, c), c.id);
      account.Some? && account.value.isActive && c.template.SuperAdmin?
  {
    hide IsActivePrivileged, AccountOf;
    var after := Applied(profiles, c);
    forall id | id != c.id ensures id in PrivilegedAdmins(site, after) <==> id in PrivilegedAdmins(site, profiles) {
      OthersUnaffected(site, profiles, after, id);
    }
    PrivilegedIsSuperAdmin(site, after, c.id);
    assert AccountOf(site, after, c.id).Some? ==> AccountOf(site, after, c.id).value.template == c.template by {
      TemplateOfAccount(site, after, c.id);
    }
  }

  lemma TemplateOfAccount(site: Site, profiles: Profiles, id: MemberId)
    ensures AccountOf(site, profiles, id).Some? ==>
      id in profiles && AccountOf(site, profiles, id).value.template == profiles[id].template
  {
  }

  /** The guard lets an actor change itself only into an active super admin. */
  lemma GuardKeepsActor(site: Site, profiles: Profiles, actor: MemberId, t: TemplateKey)
    requires ManageError(actor, actor, true, Permissions(t), |PrivilegedAdmins(site, profiles)|).None?
    ensures t.SuperAdmin?
  {
    OnlySuperAdminManages(t, Update);
  }

  lemma EmptyMatrixDenied(actor: MemberId, count: nat)
    ensures ManageError(actor, actor, false, Normalized(map[]), count).Some?
  {
    assert !Grants(Normalized(map[]), AdminManagement, Update);
  }

  /** A successful template change leaves its actor privileged, whoever the target is. */
  lemma TemplateKeepsActor(
    site: Site, profiles: Profiles, actor: MemberId, target: MemberId, key: string, campuses: Option<seq<string>>)
    requires actor in PrivilegedAdmins(site, profiles)
    ensures var outcome := TemplateOutcome(site, profiles, actor, target, key, campuses);
      outcome.Ok? ==> actor in PrivilegedAdmins(site, Applied(profiles, outcome.value))
  {
    hide IsActivePrivileged, Permissions, CanAdmin, IsPrivileged;
    var outcome := TemplateOutcome(site, profiles, actor, target, key, campuses);
    if outcome.Ok? {
      PrivilegedAfter(site, profiles, outcome.value);
      if target == actor {
        GuardKeepsActor(site, profiles, actor, outcome.value.template);
        PrivilegedIsSuperAdmin(site, profiles, actor);
      } else {
        assert actor in PrivilegedAdmins(site, profiles) - {target};
      }
    }
  }

  lemma StatusKeepsActor(site: Site, profiles: Profiles, actor: MemberId, target: MemberId, isActive: bool)
    requires actor in PrivilegedAdmins(site, profiles)
    ensures var outcome := StatusOutcome(site, profiles, actor, target, isActive);
      outcome.Ok? ==> actor in PrivilegedAdmins(site, Applied(profiles, outcome.value))
  {
    hide IsActivePrivileged, Permissions, CanAdmin, IsPrivileged, Normalized;
    var outcome := StatusOutcome(site, profiles, actor, target, isActive);
    if outcome.Ok? {
      PrivilegedAfter(site, profiles, outcome.value);
      if target == actor {
        EmptyMatrixDenied(actor, |PrivilegedAdmins(site, profiles)|);
        PrivilegedIsSuperAdmin(site, profiles, actor);
      } else {
        assert actor in PrivilegedAdmins(site, profiles) - {target};
      }
    }
  }

  lemma PermissionsKeepActor(site: Site, profiles: Profiles, actor: MemberId, target: MemberId, matrix: Matrix)
    requires actor in PrivilegedAdmins(site, profiles)
    ensures var outcome := PermissionsOutcome(site, profiles, actor, target, matrix);
      outcome.Ok? ==> actor in PrivilegedAdmins(site, Applied(profiles, outcome.value))
  {
    hide TemplateOutcome, PrivilegedAdmins, Applied, ManageError, AccountOf, MatchingTemplate, KeyText;
    var account, template := AccountOf(site, profiles, target), MatchingTemplate(matrix, 0);
    if account.Some? && template.Some? {
      TemplateKeepsActor(site, profiles, actor, target, KeyText(template.value), Some(account.value.campuses));
    }
  }

  /** The actor of every status, permission or template update stays active and privileged. */
  lemma StepKeepsActor(site: Site, profiles: Profiles, op: Op, writeOk: bool)
    requires Authorised(site, profiles, op) && !op.Grant?
    ensures op.actor in PrivilegedAdmins(site, Next(site, profiles, op, writeOk))
  {
    hide TemplateOutcome, StatusOutcome, PermissionsOutcome, PrivilegedAdmins, Applied, Authorised;
    AuthorisedIsPrivileged(site, profiles, op);
    match op
    case SetStatus(actor, target, isActive) => StatusKeepsActor(site, profiles, actor, target, isActive);
    case ApplyTemplate(actor, target, key, campuses) =>
      TemplateKeepsActor(site, profiles, actor, target, key, campuses);
    case SetPermissions(actor, target, matrix) => PermissionsKeepActor(site, profiles, actor, target, matrix);
  }

  /**
   A grant that can end all administration: it gives a lesser template to the only active
   privileged account. Nothing in the code looks at who the target is.
   */
  predicate LocksOut(site: Site, profiles: Profiles, op: Op, writeOk: bool) {
    op.Grant? && writeOk &&
    var outcome := Outcome(site, profiles, op);
    outcome.Ok? && !outcome.value.template.SuperAdmin? && PrivilegedAdmins(site, profiles) <= {outcome.value.id}
  }

  /** An authorised operation leaves an active privileged account exactly when it is no such grant. */
  lemma StepKeepsPrivileged(site: Site, profiles: Profiles, op: Op, writeOk: bool)
    requires ValidSite(site) && Authorised(site, profiles, op)
    ensures PrivilegedAdmins(site, Next(site, profiles, op, writeOk)) == {} <==> LocksOut(site, profiles, op, writeOk)
  {
    hide PrivilegedAdmins, GrantOutcome, Authorised, TemplateOutcome, StatusOutcome, PermissionsOutcome, Applied;
    AuthorisedIsPrivileged(site, profiles, op);
    if !op.Grant? {
      StepKeepsActor(site, profiles, op, writeOk);
    } else {
      var outcome := Outcome(site, profiles, op);
      if outcome.Ok? && writeOk {
        PrivilegedAfter(site, profiles, outcome.value);
        GrantedIsActive(site, profiles, op);
        var before, after := PrivilegedAdmins(site, profiles), PrivilegedAdmins(site, Applied(profiles, outcome.value));
        var id := outcome.value.id;
        assert before - {id} == after - {id};
        if before <= {id} {
          assert before - {id} == {};
          assert after <= {id};
        } else {
          assert before - {id} != {};
          assert after != {};
        }
      }
    }
  }

  /** A granted profile belongs to a live member, so its account exists and is active. */
  lemma GrantedIsActive(site: Site, profiles: Profiles, op: Op)
    requires ValidSite(site) && op.Grant? && Outcome(site, profiles, op).Ok?
    ensures var c := Outcome(site, profiles, op).value;
      AccountOf(site, Applied(profiles, c), c.id).Some? && AccountOf(site, Applied(profiles, c), c.id).value.isActive
  {
    hide Permissions, NormalizeSlugs, FindTemplate, DefaultCampuses;
    var name := NormalizeUsername(site, op.username);
    assert site.findLive(name).Some?;
  }

  /** A grant to a member that is not an active privileged account never locks out. */
  lemma GrantToOthersIsSafe(site: Site, profiles: Profiles, op: Op, writeOk: bool)
    requires Authorised(site, profiles, op) && op.Grant?
    requires Outcome(site, profiles, op).Ok? ==>
      Outcome(site, profiles, op).value.id !in PrivilegedAdmins(site, profiles)
    ensures !LocksOut(site, profiles, op, writeOk)
    ensures op.actor in PrivilegedAdmins(site, Next(site, profiles, op, writeOk))
  {
    hide PrivilegedAdmins, GrantOutcome, Authorised, Applied;
    AuthorisedIsPrivileged(site, profiles, op);
    var outcome := Outcome(site, profiles, op);
    if outcome.Ok? {
      PrivilegedAfter(site, profiles, outcome.value);
      assert op.actor in PrivilegedAdmins(site, profiles) - {outcome.value.id};
    }
  }

  // ---- runs ------------------------------------------------------------------------------------

  datatype Call = Call(op: Op, writeOk: bool)

  function After(site: Site, profiles: Profiles, calls: seq<Call>): Profiles {
    if calls == [] then profiles
    else Next(site, After(site, profiles, calls[..|calls| - 1]), calls[|calls| - 1].op, calls[|calls| - 1].writeOk)
  }

  predicate AuthorisedRun(site: Site, profiles: Profiles, calls: seq<Call>) {
    calls != [] ==>
      AuthorisedRun(site, profiles, calls[..|calls| - 1]) &&
      Authorised(site, After(site, profiles, calls[..|calls| - 1]), calls[|calls| - 1].op)
  }

  /**
   From a state with an active privileged account, an authorised run ends without one exactly
   when its last call is a grant that locks out; until then there always is one.
   */
  lemma RunKeepsPrivileged(site: Site, profiles: Profiles, calls: seq<Call>)
    requires ValidSite(site) && PrivilegedAdmins(site, profiles) != {} && AuthorisedRun(site, profiles, calls)
    ensures PrivilegedAdmins(site, After(site, profiles, calls)) == {} <==>
      calls != [] &&
      LocksOut(site, After(site, profiles, calls[..|calls| - 1]), calls[|calls| - 1].op, calls[|calls| - 1].writeOk)
  {
    hide PrivilegedAdmins, LocksOut, Authorised, Next;
    if calls != [] {
      var last := calls[|calls| - 1];
      StepKeepsPrivileged(site, After(site, profiles, calls[..|calls| - 1]), last.op, last.writeOk);
    }
  }

  /** After a lockout no operation is authorised any more, for anyone. */
  lemma LockoutIsFinal(site: Site, profiles: Profiles, op: Op)
    requires PrivilegedAdmins(site, profiles) == {}
    ensures !Authorised(site, profiles, op)
  {
    hide PrivilegedAdmins, Authorised;
    if Authorised(site, profiles, op) {
      AuthorisedIsPrivileged(site, profiles, op);
    }
  }

  /** Only accounts whose login is the reserved one hold the super admin template. */
  ghost predicate SuperAdminIsReserved(site: Site, profiles: Profiles) {
    forall id :: id in profiles && profiles[id].template.SuperAdmin? ==>
      id in site.members && IsSuperLogin(site, site.members[id].loginId)
  }

  lemma OutcomeRespectsReservation(site: Site, profiles: Profiles, op: Op)
    requires ValidSite(site) && SuperAdminIsReserved(site, profiles) && Outcome(site, profiles, op).Ok?
    ensures var c := Outcome(site, profiles, op).value;
      c.template.SuperAdmin? ==> c.id in site.members && IsSuperLogin(site, site.members[c.id].loginId)
  {
    hide Permissions, NormalizeSlugs, PrivilegedAdmins, ManageError, MatchingTemplate, KeyText, IsSuperLogin;
    if op.Grant? {
      var name := NormalizeUsername(site, op.username);
      assert site.findLive(name).Some?;
    }
  }

  /** No run of any operations, authorised or not, gives the template to another login. */
  lemma {:induction false} SuperAdminStaysReserved(site: Site, profiles: Profiles, calls: seq<Call>)
    requires ValidSite(site) && SuperAdminIsReserved(site, profiles)
    ensures SuperAdminIsReserved(site, After(site, profiles, calls))
  {
    hide Outcome, IsSuperLogin;
    if calls == [] {
    } else {
      var front, last := calls[..|calls| - 1], calls[|calls| - 1];
      SuperAdminStaysReserved(site, profiles, front);
      if Outcome(site, After(site, profiles, front), last.op).Ok? {
        OutcomeRespectsReservation(site, After(site, profiles, front), last.op);
      }
    }
  }

  /** A status update never deactivates a super admin. */
  lemma SuperAdminNeverDeactivated(site: Site, profiles: Profiles, actor: MemberId, target: MemberId)
    requires SuperAdminIsReserved(site, profiles) && target in profiles && profiles[target].template.SuperAdmin?
    ensures StatusOutcome(site, profiles, actor, target, false).Err?
  {
    hide Permissions, NormalizeSlugs, PrivilegedAdmins, ManageError, IsSuperLogin, Normalized;
  }

  /** The call writes the profile of `id`. */
  predicate WritesTo(site: Site, profiles: Profiles, call: Call, id: MemberId) {
    var outcome := Outcome(site, profiles, call.op);
    call.writeOk && outcome.Ok? && outcome.value.id == id
  }

  /** How many calls of a run wrote the profile of `id`. */
  function Writes(site: Site, profiles: Profiles, calls: seq<Call>, id: MemberId): nat {
    if calls == [] then 0
    else
      var front, last := calls[..|calls| - 1], calls[|calls| - 1];
      Writes(site, profiles, front, id) + if WritesTo(site, After(site, profiles, front), last, id) then 1 else 0
  }

  /** A version counts the writes of its profile; unwritten profiles stay as they are. */
  lemma {:induction false} VersionCountsWrites(site: Site, profiles: Profiles, calls: seq<Call>, id: MemberId)
    requires id in profiles
    ensures var after := After(site, profiles, calls);
      id in after && after[id].version == profiles[id].version + Writes(site, profiles, calls, id) &&
      (Writes(site, profiles, calls, id) == 0 ==> after[id] == profiles[id])
  {
    hide Outcome;
    if calls == [] {
    } else {
      var front, last := calls[..|calls| - 1], calls[|calls| - 1];
      VersionCountsWrites(site, profiles, front, id);
    }
  }

  // ---- where the code falls short --------------------------------------------------------------

  /** A site whose only member is the reserved login. */
  function LoneSite(): Site {
    var found: string -> Option<MemberId> := name => if name == "myknow" then Some(7) else None;
    Site(map[7 := Member("myknow", false, false, true)], name => name, found)
  }

  /**
   The sole super admin that enters its own user name into the grant form, with the form's
   default template, ends all administration.
   */
  lemma SelfGrantLocksOut()
    ensures var profiles := map[7 := Profile(SuperAdmin, [], true, 1)];
      var op := Grant(7, "myknow", "", []);
      ValidSite(LoneSite()) && Authorised(LoneSite(), profiles, op) && LocksOut(LoneSite(), profiles, op, true)
  {
    var site := LoneSite();
    var profiles := map[7 := Profile(SuperAdmin, [], true, 1)];
    var op := Grant(7, "myknow", "", []);
    hide Permissions, CanAdmin, NormalizeSlugs;
    TrimOfTrimmed("myknow");
    TrimOfTrimmed("");
    OnlySuperAdminManages(SuperAdmin, Create);
    assert PrivilegedAdmins(site, profiles) <= {7};
  }

  // ---- regional managers and their campuses ----------------------------------------------------

  /** An active regional manager that is responsible for no campus, which the forms mean to rule out. */
  predicate WithoutCampus(profile: Profile) {
    profile.template.RegionalPartnerManager? && profile.isActive && NormalizeSlugs(profile.campuses) == []
  }

  /**
   The unguarded operation: activating a regional manager whose stored campuses come to none.
   `updateAdminAccountStatus` does not repeat the check that grants and template changes make.
   */
  predicate ActivatesWithoutCampus(profiles: Profiles, op: Op) {
    op.SetStatus? && op.isActive && op.target in profiles &&
    profiles[op.target].template.RegionalPartnerManager? && NormalizeSlugs(profiles[op.target].campuses) == []
  }

  /** An operation that goes through leaves its target without a campus exactly when it is that one. */
  lemma OutcomeWithoutCampus(site: Site, profiles: Profiles, op: Op)
    requires Outcome(site, profiles, op).Ok?
    ensures var c := Outcome(site, profiles, op).value;
      c.template.RegionalPartnerManager? && c.isActive && c.campuses == [] <==> ActivatesWithoutCampus(profiles, op)
  {
    hide Permissions, NormalizeSlugs, PrivilegedAdmins, ManageError, MatchingTemplate, KeyText, IsSuperLogin;
    hide FindTemplate, Trim;
  }

  /** Campuses that an operation stores are normalised already. */
  lemma OutcomeCampusesNormal(site: Site, profiles: Profiles, op: Op)
    requires Outcome(site, profiles, op).Ok?
    ensures var c := Outcome(site, profiles, op).value; NormalizeSlugs(c.campuses) == [] <==> c.campuses == []
  {
    hide Permissions, NormalizeSlugs, PrivilegedAdmins, ManageError, MatchingTemplate, KeyText, IsSuperLogin;
    hide FindTemplate, Trim;
    var c := Outcome(site, profiles, op).value;
    assert c.campuses == [] || exists values :: c.campuses == NormalizeSlugs(values);
    if c.campuses != [] {
      var values :| c.campuses == NormalizeSlugs(values);
      NormalizeTwice(values);
    } else {
      NormalizeNothing();
    }
  }

  lemma StepWithoutCampus(site: Site, profiles: Profiles, call: Call, id: MemberId)
    ensures var after := Next(site, profiles, call.op, call.writeOk);
      (id in after && WithoutCampus(after[id])) <==>
        if WritesTo(site, profiles, call, id) then ActivatesWithoutCampus(profiles, call.op)
        else id in profiles && WithoutCampus(profiles[id])
  {
    hide Outcome, NormalizeSlugs, ActivatesWithoutCampus;
    if Outcome(site, profiles, call.op).Ok? {
      OutcomeWithoutCampus(site, profiles, call.op);
      OutcomeCampusesNormal(site, profiles, call.op);
    }
  }

  /** The last write of the profile of `id` in the run, its call number `k`, is the unguarded one. */
  predicate LastActivatedWithoutCampus(site: Site, profiles: Profiles, calls: seq<Call>, id: MemberId, k: nat) {
    && k < |calls|
    && WritesTo(site, After(site, profiles, calls[..k]), calls[k], id)
    && ActivatesWithoutCampus(After(site, profiles, calls[..k]), calls[k].op)
    && forall j :: k < j < |calls| ==> !WritesTo(site, After(site, profiles, calls[..j]), calls[j], id)
  }

  /** The newest call decides if it writes the profile, and otherwise what was decided before it. */
  lemma LastOfOneMore(site: Site, profiles: Profiles, calls: seq<Call>, id: MemberId, k: nat)
    requires calls != []
    ensures var last := |calls| - 1; var before := After(site, profiles, calls[..last]);
      LastActivatedWithoutCampus(site, profiles, calls, id, k) <==>
        if WritesTo(site, before, calls[last], id) then k == last && ActivatesWithoutCampus(before, calls[last].op)
        else LastActivatedWithoutCampus(site, profiles, calls[..last], id, k)
  {
    hide After, ActivatesWithoutCampus, WritesTo;
    var last := |calls| - 1;
    var front := calls[..last];
    assert forall j :: 0 <= j <= last ==> front[..j] == calls[..j];
  }

  /**
   Over every run, an account ends as an active regional manager without a campus exactly when the
   last write of its profile activated it with no campus stored, or it was one and was never written.
   */
  lemma {:induction false} ManagerWithoutCampus(site: Site, profiles: Profiles, calls: seq<Call>, id: MemberId)
    ensures var after := After(site, profiles, calls);
      (id in after && WithoutCampus(after[id])) <==>
        || (exists k: nat :: LastActivatedWithoutCampus(site, profiles, calls, id, k))
        || (Writes(site, profiles, calls, id) == 0 && id in profiles && WithoutCampus(profiles[id]))
  {
    hide Next, WithoutCampus, ActivatesWithoutCampus, WritesTo;
    if calls == [] {
    } else {
      var last := |calls| - 1;
      ManagerWithoutCampus(site, profiles, calls[..last], id);
      StepWithoutCampus(site, After(site, profiles, calls[..last]), calls[last], id);
      hide LastActivatedWithoutCampus;
      LastOfOneMore(site, profiles, calls, id, last);
      forall k: nat
        ensures LastActivatedWithoutCampus(site, profiles, calls, id, k) <==>
          if WritesTo(site, After(site, profiles, calls[..last]), calls[last], id)
          then k == last && ActivatesWithoutCampus(After(site, profiles, calls[..last]), calls[last].op)
          else LastActivatedWithoutCampus(site, profiles, calls[..last], id, k)
      {
        LastOfOneMore(site, profiles, calls, id, k);
      }
    }
  }

  /** Deactivation drops the campuses, so deactivating a regional manager and activating it again does it. */
  lemma ReactivatedWithoutCampus(site: Site, profiles: Profiles, actor: MemberId, target: MemberId)
    requires AccountOf(site, profiles, target).Some? && actor != target
    requires !IsSuperLogin(site, site.members[target].loginId)
    ensures var inactive := Next(site, profiles, SetStatus(actor, target, false), true);
      var after := Next(site, inactive, SetStatus(actor, target, true), true);
      && target in after
      && after[target] == Profile(profiles[target].template, [], true, profiles[target].version + 2)
      && (WithoutCampus(after[target]) <==> profiles[target].template.RegionalPartnerManager?)
  {
    hide Permissions, PrivilegedAdmins, IsSuperLogin, Normalized;
    var off := StatusOutcome(site, profiles, actor, target, false);
    assert off == Ok(Change(target, profiles[target].template, [], false));
    var inactive := Next(site, profiles, SetStatus(actor, target, false), true);
    assert inactive[target] == Profile(profiles[target].template, [], false, profiles[target].version + 1);
    assert StatusOutcome(site, inactive, actor, target, true) ==
      Ok(Change(target, profiles[target].template, [], true));
  }
}
