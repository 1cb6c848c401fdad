/** The account handlers: registration through a pending record confirmed by
    a one-time code, the password-reset lifecycle (code, then reset token, then
    cleared), profile updates, and the organization/role update. Hashing, token
    signing and code generation are outside the model: their results arrive as
    parameters, as does the current time in milliseconds. */
module Auth {
  import opened Common

  /** Both one-time codes stay valid for ten minutes. */
  const OtpLifetime: int := 600000
  /** A reset token stays valid for fifteen minutes. */
  const TokenLifetime: int := 900000

  const ImageRequired := "Profile image is required."
  const OrgCodeRequired := "Organization code is required."
  const OrgCodeShape := "Organization code must be exactly 14 digits."
  const OrgCodeInvalid := "Invalid organization code."
  const UserExists := "User already exists"
  const RegistrationPending := "Registration already pending for this email. Please verify OTP."
  const NoPendingRegistration := "No pending registration for this email."
  const InvalidRegistrationOtp := "Invalid or expired OTP."
  const UserNotFound := "User not found"
  const OtpNotRequested := "OTP not requested or expired"
  const InvalidOtp := "Invalid or expired OTP"
  const InvalidToken := "Invalid or expired token"
  const InvalidInviteToken := "Invalid admin invite token."

  /** The two environment settings the handlers compare against; either may be unset. */
  datatype Config = Config(orgCode: Option<string>, adminInviteToken: Option<string>)

  // ------------------------------------------------ organization and role

  predicate IsDigit(c: char)
  {
    '0' <= c <= '9'
  }

  /** `/^[0-9]{14}$/`. */
  predicate FourteenDigits(code: string)
  {
    |code| == 14 && forall i :: 0 <= i < |code| ==> IsDigit(code[i])
  }

  /** The organization-code checks shared by registration and the role update:
      present, then fourteen digits, then equal to the configured code. `None`
      means accepted. */
  function CheckOrgCode(code: string, config: Config): (r: Option<Error>)
    ensures r.None? <==> FourteenDigits(code) && config.orgCode == Some(code)
    ensures r == Some(BadRequest(OrgCodeRequired)) <==> code == ""
    ensures r == Some(BadRequest(OrgCodeShape)) <==> code != "" && !FourteenDigits(code)
    ensures r == Some(BadRequest(OrgCodeInvalid)) <==> FourteenDigits(code) && config.orgCode != Some(code)
  {
    if code == "" then Some(BadRequest(OrgCodeRequired))
    else if !FourteenDigits(code) then Some(BadRequest(OrgCodeShape))
    else if config.orgCode != Some(code) then Some(BadRequest(OrgCodeInvalid))
    else None
  }

  /** With the code setting unset, or set to something other than fourteen
      digits, no code is ever accepted. */
  lemma MisconfiguredCodeRejectsAll(code: string, config: Config)
    requires config.orgCode.None? || !FourteenDigits(config.orgCode.value)
    ensures CheckOrgCode(code, config).Some?
  {
  }

  /** The role a registration receives from its invite token. */
  function RoleFor(token: string, config: Config): (r: Role)
    ensures r == Admin ==> config.adminInviteToken == Some(token)
    ensures token == "" ==> r == Member
  {
    if token != "" && config.adminInviteToken == Some(token) then Admin else Member
  }

  /** Exactly the configured, non-empty invite token grants the admin role. */
  lemma RoleForAdmin(token: string, config: Config)
    ensures RoleFor(token, config) == Admin <==> token != "" && config.adminInviteToken == Some(token)
  {
  }

  /** The role update: the organization checks, then an optional invite
      token; a supplied token must match, and an absent one keeps the role. */
  function RoleAndOrg(role: Role, token: string, code: string, config: Config): (r: Result<Role>)
    ensures r.Ok? <==> CheckOrgCode(code, config).None? && (token == "" || config.adminInviteToken == Some(token))
    ensures CheckOrgCode(code, config).Some? ==> r == Fail(CheckOrgCode(code, config).value)
    ensures CheckOrgCode(code, config).None? && token != "" && config.adminInviteToken != Some(token) ==>
              r == Fail(BadRequest(InvalidInviteToken))
    ensures r.Ok? ==> r.value == (if token == "" then role else Admin)
  {
    match CheckOrgCode(code, config)
    case Some(e) => Fail(e)
    case None =>
      if token == "" then Ok(role)
      else if config.adminInviteToken == Some(token) then Ok(Admin)
      else Fail(BadRequest(InvalidInviteToken))
  }

  /** The role update never demotes, and it agrees with registration on which
      tokens grant the admin role. */
  lemma RoleAndOrgNeverDemotes(role: Role, token: string, code: string, config: Config)
    requires RoleAndOrg(role, token, code, config).Ok?
    ensures role == Admin ==> RoleAndOrg(role, token, code, config).value == Admin
    ensures token != "" ==> RoleAndOrg(role, token, code, config).value == RoleFor(token, config)
  {
  }

  // ----------------------------------------------------------- registration

  /** The registration body; an absent field is the empty string. */
  datatype Registration = Registration(name: string, email: string, password: string,
                                       profileImageUrl: string, adminInviteToken: string,
                                       organizationCode: string)

  /** A registration waiting for its one-time code; `password` is the hash. */
  datatype PendingUser = PendingUser(name: string, email: string, password: string,
                                     profileImageUrl: string, role: Role, organizationCode: string,
                                     registrationOtp: string, registrationOtpExpires: int)

  /** The registration checks in order: image, organization code, an existing
      user with the email, an existing pending record with the email. */
  function Admit(reg: Registration, config: Config, emailTaken: bool, emailPending: bool): (r: Result<Role>)
    ensures r.Ok? <==> reg.profileImageUrl != "" && CheckOrgCode(reg.organizationCode, config).None?
                       && !emailTaken && !emailPending
    ensures r.Fail? ==> r.error.BadRequest?
    ensures reg.profileImageUrl == "" ==> r == Fail(BadRequest(ImageRequired))
    ensures reg.profileImageUrl != "" && CheckOrgCode(reg.organizationCode, config).Some? ==>
              r == Fail(CheckOrgCode(reg.organizationCode, config).value)
    ensures reg.profileImageUrl != "" && CheckOrgCode(reg.organizationCode, config).None? && emailTaken ==>
              r == Fail(BadRequest(UserExists))
    ensures (reg.profileImageUrl != "" && CheckOrgCode(reg.organizationCode, config).None? && !emailTaken
             && emailPending) ==> r == Fail(BadRequest(RegistrationPending))
    ensures r.Ok? ==> r.value == RoleFor(reg.adminInviteToken, config)
  {
    if reg.profileImageUrl == "" then Fail(BadRequest(ImageRequired))
    else match CheckOrgCode(reg.organizationCode, config)
      case Some(e) => Fail(e)
      case None =>
        if emailTaken then Fail(BadRequest(UserExists))
        else if emailPending then Fail(BadRequest(RegistrationPending))
        else Ok(RoleFor(reg.adminInviteToken, config))
  }

  /** Both one-time codes are accepted when they match and have not expired;
      an expiry equal to `now` still passes. */
  predicate OtpAccepts(stored: string, expires: int, given: string, now: int)
  {
    stored == given && !(expires < now)
  }

  // ------------------------------------------------ password-reset lifecycle

  /** The password-reset fields of a user record; `None` is an unset field. */
  datatype ResetState = ResetState(otp: Option<string>, otpExpires: Option<int>,
                                   token: Option<string>, tokenExpires: Option<int>)

  /** Requesting a reset code: the code and its expiry are set, the token kept. */
  function Forgot(st: ResetState, otp: string, now: int): (r: ResetState)
    ensures r.otp == Some(otp) && r.otpExpires == Some(now + OtpLifetime)
    ensures r.token == st.token && r.tokenExpires == st.tokenExpires
  {
    st.(otp := Some(otp), otpExpires := Some(now + OtpLifetime))
  }

  /** A code is outstanding: a non-empty code with an expiry. */
  predicate OtpRequested(st: ResetState)
  {
    st.otp.Some? && st.otp.value != "" && st.otpExpires.Some?
  }

  /** Confirming a reset code: on success a reset token is issued and both code
      fields are cleared. */
  function ConfirmOtp(st: ResetState, given: string, token: string, now: int): (r: Result<ResetState>)
    ensures r.Ok? <==> OtpRequested(st) && OtpAccepts(st.otp.value, st.otpExpires.value, given, now)
    ensures !OtpRequested(st) ==> r == Fail(BadRequest(OtpNotRequested))
    ensures OtpRequested(st) && !OtpAccepts(st.otp.value, st.otpExpires.value, given, now) ==>
              r == Fail(BadRequest(InvalidOtp))
    ensures r.Ok? ==> r.value == ResetState(None, None, Some(token), Some(now + TokenLifetime))
  {
    if !OtpRequested(st) then Fail(BadRequest(OtpNotRequested))
    else if !OtpAccepts(st.otp.value, st.otpExpires.value, given, now) then Fail(BadRequest(InvalidOtp))
    else Ok(ResetState(None, None, Some(token), Some(now + TokenLifetime)))
  }

  /** The reset-token lookup: the token matches and expires strictly after `now`. */
  predicate TokenAccepts(st: ResetState, token: string, now: int)
  {
    st.token == Some(token) && st.tokenExpires.Some? && st.tokenExpires.value > now
  }

  /** Completing a reset clears both token fields. */
  function ClearToken(st: ResetState): (r: ResetState)
    ensures r.otp == st.otp && r.otpExpires == st.otpExpires
    ensures forall token, now :: !TokenAccepts(r, token, now)
  {
    st.(token := None, tokenExpires := None)
  }

  /** A code can be confirmed once: a second confirmation finds none outstanding. */
  lemma OtpSingleUse(st: ResetState, given: string, token: string, now: int,
                     given': string, token': string, now': int)
    requires ConfirmOtp(st, given, token, now).Ok?
    ensures ConfirmOtp(ConfirmOtp(st, given, token, now).value, given', token', now') ==
            Fail(BadRequest(OtpNotRequested))
  {
  }

  /** A freshly requested code is confirmed exactly by the same code within ten
      minutes of the request, the last millisecond included. */
  lemma ForgotThenConfirm(st: ResetState, otp: string, now: int, given: string, token: string, later: int)
    requires otp != ""
    ensures ConfirmOtp(Forgot(st, otp, now), given, token, later).Ok? <==>
            given == otp && later <= now + OtpLifetime
  {
  }

  /** The issued token opens a reset strictly before fifteen minutes have
      passed; unlike the code, it is refused at its expiry instant. */
  lemma ConfirmedTokenWindow(st: ResetState, given: string, token: string, now: int, token': string, later: int)
    requires ConfirmOtp(st, given, token, now).Ok?
    ensures TokenAccepts(ConfirmOtp(st, given, token, now).value, token', later) <==>
            token' == token && later < now + TokenLifetime
  {
  }

  /** The two expiry rules differ at the boundary instant. */
  lemma ExpiryBoundaries(code: string, token: string, at: int)
    ensures OtpAccepts(code, at, code, at)
    ensures !TokenAccepts(ResetState(None, None, Some(token), Some(at)), token, at)
  {
  }

  // ------------------------------------------------------- profile updates

  /** The fields of a user record the details handler may change;
      `password` is the stored hash. */
  datatype Profile = Profile(name: string, email: string, password: string, profileImageUrl: string)

  /** The details body; an absent field is the empty string. `hash` stands for
      the hash of `password`. */
  datatype DetailsBody = DetailsBody(name: string, email: string, password: string,
                                     profileImageUrl: string, hash: string)

  /** The details update: an image must be present in the body or on the
      record; each field falls back to its old value; the password changes
      only when one is supplied. */
  function ApplyDetails(p: Profile, body: DetailsBody): (r: Result<Profile>)
    ensures r.Fail? <==> body.profileImageUrl == "" && p.profileImageUrl == ""
    ensures r.Fail? ==> r.error == BadRequest(ImageRequired)
    ensures r.Ok? ==> r.value.profileImageUrl != ""
    ensures r.Ok? ==> r.value.name == OrElse(body.name, p.name) && r.value.email == OrElse(body.email, p.email)
    ensures r.Ok? ==> r.value.profileImageUrl == OrElse(body.profileImageUrl, p.profileImageUrl)
    ensures r.Ok? ==> r.value.password == (if body.password != "" then body.hash else p.password)
  {
    if body.profileImageUrl == "" && p.profileImageUrl == "" then Fail(BadRequest(ImageRequired))
    else
      Ok(Profile(OrElse(body.name, p.name), OrElse(body.email, p.email),
                 if body.password != "" then body.hash else p.password,
                 OrElse(body.profileImageUrl, p.profileImageUrl)))
  }

  /** Sending the same body again is accepted and keeps the name, email and
      image of the first update. A password is salted anew on every request,
      so a repeat carries a fresh hash `rehash`, which replaces the first; a
      repeat without a password changes nothing. An empty body changes
      nothing at all once an image is stored. */
  lemma ApplyDetailsIdempotent(p: Profile, body: DetailsBody, rehash: string)
    requires ApplyDetails(p, body).Ok?
    ensures var once := ApplyDetails(p, body).value;
            var again := ApplyDetails(once, body.(hash := rehash));
            && again.Ok?
            && again.value.name == once.name && again.value.email == once.email
            && again.value.profileImageUrl == once.profileImageUrl
            && again.value.password == (if body.password != "" then rehash else once.password)
    ensures body.password == "" ==> ApplyDetails(ApplyDetails(p, body).value, body.(hash := rehash)) == ApplyDetails(p, body)
    ensures body.name == "" && body.email == "" && body.password == "" && body.profileImageUrl == "" ==>
            ApplyDetails(p, body) == Ok(p)
  {
  }

  // ------------------------------------------------------------- records

  /** A stored user record. An unset organization code is the empty string. */
  class User {
    const id: UserId
    var name: string
    var email: string
    var password: string
    var profileImageUrl: string
    var role: Role
    var organizationCode: string
    var resetOtp: Option<string>
    var resetOtpExpires: Option<int>
    var resetToken: Option<string>
    var resetExpires: Option<int>

    function Reset(): ResetState
      reads this
    {
      ResetState(resetOtp, resetOtpExpires, resetToken, resetExpires)
    }

    function Details(): Profile
      reads this
    {
      Profile(name, email, password, profileImageUrl)
    }

    /** The user a confirmed registration creates, with no reset fields set. */
    constructor FromPending(id: UserId, p: PendingUser)
      ensures this.id == id && Details() == Profile(p.name, p.email, p.password, p.profileImageUrl)
      ensures role == p.role && organizationCode == p.organizationCode
      ensures Reset() == ResetState(None, None, None, None)
    {
      this.id := id;
      name, email, password, profileImageUrl := p.name, p.email, p.password, p.profileImageUrl;
      role, organizationCode := p.role, p.organizationCode;
      resetOtp, resetOtpExpires, resetToken, resetExpires := None, None, None, None;
    }

    method RequestOtp(otp: string, now: int)
      modifies this`resetOtp, this`resetOtpExpires
      ensures Reset() == Forgot(old(Reset()), otp, now)
    {
      resetOtp := Some(otp);
      resetOtpExpires := Some(now + OtpLifetime);
    }

    /** The code check and the token issue; on failure nothing is saved. */
    method CheckOtp(given: string, token: string, now: int) returns (r: Outcome)
      modifies this`resetOtp, this`resetOtpExpires, this`resetToken, this`resetExpires
      ensures ConfirmOtp(old(Reset()), given, token, now).Fail? ==>
                r == Failed(ConfirmOtp(old(Reset()), given, token, now).error) && Reset() == old(Reset())
      ensures ConfirmOtp(old(Reset()), given, token, now).Ok? ==>
                r == Done && Reset() == ConfirmOtp(old(Reset()), given, token, now).value
    {
      if resetOtp.None? || resetOtp.value == "" || resetOtpExpires.None? {
        return Failed(BadRequest(OtpNotRequested));
      }
      if resetOtp.value != given || resetOtpExpires.value < now {
        return Failed(BadRequest(InvalidOtp));
      }
      resetToken := Some(token);
      resetExpires := Some(now + TokenLifetime);
      resetOtp := None;
      resetOtpExpires := None;
      r := Done;
    }

    /** The new password hash is stored and the token is spent. */
    method CompleteReset(hash: string)
      modifies this`password, this`resetToken, this`resetExpires
      ensures password == hash
      ensures Reset() == ClearToken(old(Reset()))
    {
      password := hash;
      resetToken := None;
      resetExpires := None;
    }

    method UpdateDetails(body: DetailsBody) returns (r: Outcome)
      modifies this`name, this`email, this`password, this`profileImageUrl
      ensures ApplyDetails(old(Details()), body).Fail? ==>
                r == Failed(BadRequest(ImageRequired)) && Details() == old(Details())
      ensures ApplyDetails(old(Details()), body).Ok? ==>
                r == Done && Details() == ApplyDetails(old(Details()), body).value
    {
      if body.profileImageUrl == "" && profileImageUrl == "" {
        return Failed(BadRequest(ImageRequired));
      }
      name := OrElse(body.name, name);
      email := OrElse(body.email, email);
      profileImageUrl := OrElse(body.profileImageUrl, profileImageUrl);
      if body.password != "" {
        password := body.hash;
      }
      r := Done;
    }

    /** The organization and role update. The handler assigns the code before
        it checks the token, but a refused token returns before the record is
        saved, so on failure nothing changes. */
    method UpdateRoleAndOrg(token: string, code: string, config: Config) returns (r: Outcome)
      modifies this`role, this`organizationCode
      ensures RoleAndOrg(old(role), token, code, config).Fail? ==>
                r == Failed(RoleAndOrg(old(role), token, code, config).error)
                && role == old(role) && organizationCode == old(organizationCode)
      ensures RoleAndOrg(old(role), token, code, config).Ok? ==>
                r == Done && role == RoleAndOrg(old(role), token, code, config).value && organizationCode == code
    {
      var check := CheckOrgCode(code, config);
      if check.Some? {
        return Failed(check.value);
      }
      var newRole := role;
      if token != "" {
        if config.adminInviteToken == Some(token) {
          newRole := Admin;
        } else {
          return Failed(BadRequest(InvalidInviteToken));
        }
      }
      organizationCode := code;
      role := newRole;
      r := Done;
    }
  }

  // --------------------------------------------------------------- lookups

  /** `findOne({email})`: the first user with the email. */
  function FindByEmail(users: seq<User>, email: string): (k: Option<nat>)
    reads users
    ensures k.None? <==> forall j :: 0 <= j < |users| ==> users[j].email != email
    ensures k.Some? ==> k.value < |users| && users[k.value].email == email
    ensures k.Some? ==> forall j :: 0 <= j < k.value ==> users[j].email != email
  {
    if users == [] then None
    else if users[0].email == email then Some(0)
    else match FindByEmail(users[1..], email)
      case None => None
      case Some(k) => Some(k + 1)
  }

  /** `findById`: the user with the id. */
  function FindById(users: seq<User>, id: UserId): (k: Option<nat>)
    ensures k.None? <==> forall j :: 0 <= j < |users| ==> users[j].id != id
    ensures k.Some? ==> k.value < |users| && users[k.value].id == id
    ensures k.Some? ==> forall j :: 0 <= j < k.value ==> users[j].id != id
  {
    if users == [] then None
    else if users[0].id == id then Some(0)
    else match FindById(users[1..], id)
      case None => None
      case Some(k) => Some(k + 1)
  }

  /** The reset-token query: the first user whose token matches and has not expired. */
  function FindByToken(users: seq<User>, token: string, now: int): (k: Option<nat>)
    reads users
    ensures k.None? <==> forall j :: 0 <= j < |users| ==> !TokenAccepts(users[j].Reset(), token, now)
    ensures k.Some? ==> k.value < |users| && TokenAccepts(users[k.value].Reset(), token, now)
    ensures k.Some? ==> forall j :: 0 <= j < k.value ==> !TokenAccepts(users[j].Reset(), token, now)
  {
    if users == [] then None
    else if TokenAccepts(users[0].Reset(), token, now) then Some(0)
    else match FindByToken(users[1..], token, now)
      case None => None
      case Some(k) => Some(k + 1)
  }

  /** The pending record with the email, if any. */
  function FindPending(pending: seq<PendingUser>, email: string): (k: Option<nat>)
    ensures k.None? <==> forall j :: 0 <= j < |pending| ==> pending[j].email != email
    ensures k.Some? ==> k.value < |pending| && pending[k.value].email == email
    ensures k.Some? ==> forall j :: 0 <= j < k.value ==> pending[j].email != email
  {
    if pending == [] then None
    else if pending[0].email == email then Some(0)
    else match FindPending(pending[1..], email)
      case None => None
      case Some(k) => Some(k + 1)
  }

  /** A registration whose record was stored but whose mail failed cannot be
      retried: the stored record makes the next attempt with the same email
      fail as already pending (or as taken), whatever else it carries. */
  lemma RegistrationRetryIsPending(pending: seq<PendingUser>, stored: PendingUser, reg: Registration,
                                   config: Config, emailTaken: bool)
    requires stored.email == reg.email
    ensures var a := Admit(reg, config, emailTaken, FindPending(pending + [stored], reg.email).Some?);
            && a.Fail?
            && (reg.profileImageUrl != "" && CheckOrgCode(reg.organizationCode, config).None? && !emailTaken ==>
                  a.error == BadRequest(RegistrationPending))
  {
    assert (pending + [stored])[|pending|].email == reg.email;
  }

  // ----------------------------------------------------------------- store

  /** The user and pending-registration collections. */
  class Accounts {
    var users: seq<User>
    var pending: seq<PendingUser>

    /** User ids are unique, and registration keeps at most one pending
        record per email. */
    ghost predicate Valid()
      reads this
    {
      && (forall i, j :: 0 <= i < j < |users| ==> users[i].id != users[j].id)
      && (forall i, j :: 0 <= i < j < |pending| ==> pending[i].email != pending[j].email)
    }

    constructor Init(users: seq<User>, pending: seq<PendingUser>)
      requires forall i, j :: 0 <= i < j < |users| ==> users[i].id != users[j].id
      requires forall i, j :: 0 <= i < j < |pending| ==> pending[i].email != pending[j].email
      ensures Valid() && this.users == users && this.pending == pending
    {
      this.users, this.pending := users, pending;
    }

    /** Registration: after the checks, a pending record holding the hashed
        password, the chosen role and a code valid for ten minutes. The code
        is mailed after the record is stored; `mailSent` is whether that send
        succeeded, and a failed send answers 500 with the record kept. */
    method Register(reg: Registration, passwordHash: string, otp: string, now: int, config: Config,
                    mailSent: bool)
      returns (r: Outcome)
      requires Valid()
      modifies this`pending
      ensures Valid()
      ensures var a := Admit(reg, config, FindByEmail(users, reg.email).Some?,
                             FindPending(old(pending), reg.email).Some?);
              && (a.Fail? ==> r == Failed(a.error) && pending == old(pending))
              && (a.Ok? ==>
                    && r == (if mailSent then Done else Failed(ServerError))
                    && pending == old(pending) +
                      [PendingUser(reg.name, reg.email, passwordHash, reg.profileImageUrl, a.value,
                                   reg.organizationCode, otp, now + OtpLifetime)])
    {
      if reg.profileImageUrl == "" {
        return Failed(BadRequest(ImageRequired));
      }
      var check := CheckOrgCode(reg.organizationCode, config);
      if check.Some? {
        return Failed(check.value);
      }
      if FindByEmail(users, reg.email).Some? {
        return Failed(BadRequest(UserExists));
      }
      if FindPending(pending, reg.email).Some? {
        return Failed(BadRequest(RegistrationPending));
      }
      var role := RoleFor(reg.adminInviteToken, config);
      pending := pending + [PendingUser(reg.name, reg.email, passwordHash, reg.profileImageUrl, role,
                                        reg.organizationCode, otp, now + OtpLifetime)];
      r := if mailSent then Done else Failed(ServerError);
    }

    /** Registration confirmation: the pending record becomes a user with a
        newly issued id, and the pending record is deleted. */
    method VerifyRegistration(email: string, otp: string, now: int, newId: UserId) returns (r: Result<User>)
      requires Valid()
      requires forall j :: 0 <= j < |users| ==> users[j].id != newId
      modifies this`users, this`pending
      ensures Valid()
      ensures FindPending(old(pending), email).None? ==>
                r == Fail(BadRequest(NoPendingRegistration)) && users == old(users) && pending == old(pending)
      ensures FindPending(old(pending), email).Some? ==>
                var k := FindPending(old(pending), email).value;
                var p := old(pending)[k];
                if OtpAccepts(p.registrationOtp, p.registrationOtpExpires, otp, now) then
                  && r.Ok? && fresh(r.value) && users == old(users) + [r.value]
                  && r.value.id == newId && r.value.role == p.role
                  && r.value.organizationCode == p.organizationCode
                  && r.value.Reset() == ResetState(None, None, None, None)
                  && r.value.Details() == Profile(p.name, p.email, p.password, p.profileImageUrl)
                  && pending == old(pending)[..k] + old(pending)[k + 1..]
                  && FindPending(pending, email).None?
                else
                  r == Fail(BadRequest(InvalidRegistrationOtp)) && users == old(users) && pending == old(pending)
    {
      var found := FindPending(pending, email);
      if found.None? {
        return Fail(BadRequest(NoPendingRegistration));
      }
      var k := found.value;
      var p := pending[k];
      if p.registrationOtp != otp || p.registrationOtpExpires < now {
        return Fail(BadRequest(InvalidRegistrationOtp));
      }
      var user := new User.FromPending(newId, p);
      users := users + [user];
      ghost var before := pending;
      pending := pending[..k] + pending[k + 1..];
      forall j | 0 <= j < |pending| ensures pending[j].email != email {
        if j < k {
          assert pending[j] == before[j];
        } else {
          assert pending[j] == before[j + 1];
        }
      }
      r := Ok(user);
    }

    /** Password-reset request: a code valid for ten minutes on the user with
        the email. The code is mailed after it is saved; a failed send answers
        500 with the code kept. */
    method ForgotPassword(email: string, otp: string, now: int, mailSent: bool) returns (r: Outcome)
      requires Valid()
      modifies users
      ensures match FindByEmail(users, email)
              case None => r == Failed(NotFound(UserNotFound)) && forall u :: u in users ==> unchanged(u)
              case Some(k) =>
                && r == (if mailSent then Done else Failed(ServerError))
                && users[k].Reset() == Forgot(old(users[k].Reset()), otp, now)
                && users[k].Details() == old(users[k].Details())
                && users[k].role == old(users[k].role) && users[k].organizationCode == old(users[k].organizationCode)
                && forall j :: 0 <= j < |users| && j != k ==> unchanged(users[j])
    {
      var found := FindByEmail(users, email);
      if found.None? {
        return Failed(NotFound(UserNotFound));
      }
      users[found.value].RequestOtp(otp, now);
      r := if mailSent then Done else Failed(ServerError);
    }

    /** Code confirmation for the user with the email; a missing user is
        answered like a missing code. */
    method VerifyOtp(email: string, otp: string, token: string, now: int) returns (r: Outcome)
      requires Valid()
      modifies users
      ensures match FindByEmail(users, email)
              case None => r == Failed(BadRequest(OtpNotRequested)) && forall u :: u in users ==> unchanged(u)
              case Some(k) =>
                && (ConfirmOtp(old(users[k].Reset()), otp, token, now).Fail? ==>
                      r == Failed(ConfirmOtp(old(users[k].Reset()), otp, token, now).error) && unchanged(users[k]))
                && (ConfirmOtp(old(users[k].Reset()), otp, token, now).Ok? ==>
                      r == Done && users[k].Reset() == ConfirmOtp(old(users[k].Reset()), otp, token, now).value
                      && users[k].Details() == old(users[k].Details())
                      && users[k].role == old(users[k].role)
                      && users[k].organizationCode == old(users[k].organizationCode))
                && forall j :: 0 <= j < |users| && j != k ==> unchanged(users[j])
    {
      var found := FindByEmail(users, email);
      if found.None? {
        return Failed(BadRequest(OtpNotRequested));
      }
      r := users[found.value].CheckOtp(otp, token, now);
    }

    /** Password reset by token: the first user holding the unexpired token
        gets the new hash, and the token is spent. */
    method ResetPassword(token: string, hash: string, now: int) returns (r: Outcome)
      requires Valid()
      modifies users
      ensures match old(FindByToken(users, token, now))
              case None => r == Failed(BadRequest(InvalidToken)) && forall u :: u in users ==> unchanged(u)
              case Some(k) =>
                && r == Done && users[k].password == hash
                && users[k].name == old(users[k].name) && users[k].email == old(users[k].email)
                && users[k].profileImageUrl == old(users[k].profileImageUrl)
                && users[k].role == old(users[k].role) && users[k].organizationCode == old(users[k].organizationCode)
                && users[k].Reset() == ClearToken(old(users[k].Reset()))
                && !TokenAccepts(users[k].Reset(), token, now)
                && forall j :: 0 <= j < |users| && j != k ==> unchanged(users[j])
    {
      var found := FindByToken(users, token, now);
      if found.None? {
        return Failed(BadRequest(InvalidToken));
      }
      users[found.value].CompleteReset(hash);
      r := Done;
    }

    /** The details handler for the authenticated user. */
    method UpdateUserDetails(actorId: UserId, body: DetailsBody) returns (r: Outcome)
      requires Valid()
      modifies users
      ensures match FindById(users, actorId)
              case None => r == Failed(NotFound(UserNotFound)) && forall u :: u in users ==> unchanged(u)
              case Some(k) =>
                && (ApplyDetails(old(users[k].Details()), body).Fail? ==>
                      r == Failed(BadRequest(ImageRequired)) && unchanged(users[k]))
                && (ApplyDetails(old(users[k].Details()), body).Ok? ==>
                      r == Done && users[k].Details() == ApplyDetails(old(users[k].Details()), body).value
                      && users[k].Reset() == old(users[k].Reset()) && users[k].role == old(users[k].role)
                      && users[k].organizationCode == old(users[k].organizationCode))
                && forall j :: 0 <= j < |users| && j != k ==> unchanged(users[j])
    {
      var found := FindById(users, actorId);
      if found.None? {
        return Failed(NotFound(UserNotFound));
      }
      r := users[found.value].UpdateDetails(body);
    }

    /** The organization and role handler for the authenticated user. */
    method UpdateRoleAndOrg(actorId: UserId, token: string, code: string, config: Config) returns (r: Outcome)
      requires Valid()
      modifies users
      ensures match FindById(users, actorId)
              case None => r == Failed(NotFound(UserNotFound)) && forall u :: u in users ==> unchanged(u)
              case Some(k) =>
                && (RoleAndOrg(old(users[k].role), token, code, config).Fail? ==>
                      r == Failed(RoleAndOrg(old(users[k].role), token, code, config).error) && unchanged(users[k]))
                && (RoleAndOrg(old(users[k].role), token, code, config).Ok? ==>
                      r == Done && users[k].role == RoleAndOrg(old(users[k].role), token, code, config).value
                      && users[k].organizationCode == code && users[k].Details() == old(users[k].Details())
                      && users[k].Reset() == old(users[k].Reset()))
                && forall j :: 0 <= j < |users| && j != k ==> unchanged(users[j])
    {
      var found := FindById(users, actorId);
      if found.None? {
        return Failed(NotFound(UserNotFound));
      }
      r := users[found.value].UpdateRoleAndOrg(token, code, config);
    }
  }
}
