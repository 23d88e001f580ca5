/** Registration and the saved shipping address (API/Controllers/AccountController.cs). */
module Account {
  import opened Wrappers
  import opened Text
  import opened Entities
  import opened Identity

  /** The posted address, and the address returned to the client. */
  datatype AddressDto = AddressDto(
    fullName: string,
    line1: string,
    line2: Option<string>,
    city: string,
    state: string,
    postalCode: string,
    country: string,
    phoneNumber: string
  )

  datatype RegisterDto = RegisterDto(
    email: string,
    password: string,
    fullName: Option<string>,
    businessName: Option<string>,
    shippingAddress: Option<AddressDto>
  )

  /** What the identity calls of one registration report; each `false` stands for a failed `IdentityResult`. */
  datatype RegisterOutcomes = RegisterOutcomes(createOk: bool, createRoleOk: bool, addRoleOk: bool)

  datatype RegisterResponse =
    | BadRequest(message: string)
    | ValidationProblem
    | Registered(id: string, email: string, accountType: AccountType, businessName: Option<string>)

  /** The role every registration assigns. */
  const RegisterRole: string := "Public"

  /** `BusinessName`: absent when blank, otherwise trimmed. */
  function NormalizeBusinessName(name: Option<string>): (r: Option<string>)
    ensures r.None? <==> IsNullOrWhiteSpace(name)
    ensures r.Some? ==> r.value == Trim(name.value) && r.value != ""
  {
    if IsNullOrWhiteSpace(name) then None else Some(Trim(name.value))
  }

  /** The address stored at registration: a blank full name falls back to the top-level one (or ""); other fields verbatim. */
  function RegisteredAddress(dto: RegisterDto, a: AddressDto, userId: string): (r: Address)
    ensures r.fullName == (if IsBlank(a.fullName) then dto.fullName.GetOr("") else a.fullName)
    ensures r.line1 == a.line1 && r.line2 == a.line2 && r.city == a.city && r.state == a.state
    ensures r.postalCode == a.postalCode && r.country == a.country && r.phoneNumber == a.phoneNumber
    ensures r.userId == userId
  {
    Address(if IsBlank(a.fullName) then dto.fullName.GetOr("") else a.fullName,
            a.line1, a.line2, a.city, a.state, a.postalCode, a.country, a.phoneNumber, userId)
  }

  /** The user `RegisterUser` builds before calling the identity framework. */
  function RegisteredUser(dto: RegisterDto, newId: string): (u: User)
    ensures u.userName == Trim(dto.email) && u.email == Trim(dto.email)
    ensures u.accountType == Public
    ensures u.businessName == NormalizeBusinessName(dto.businessName)
    ensures u.taxId.None?
    ensures u.shippingAddress.Some? <==> dto.shippingAddress.Some?
    ensures u.id == newId
  {
    var address := if dto.shippingAddress.Some? then Some(RegisteredAddress(dto, dto.shippingAddress.value, newId)) else None;
    NewUser(newId, Trim(dto.email), Trim(dto.email), Public, NormalizeBusinessName(dto.businessName), None, address)
  }

  /**
    * The identity steps of `RegisterUser`: create the user, make sure the "Public" role
    * exists, assign it. A failure after creation leaves the user in the store, without the role.
    */
  function Enroll(store: Store, user: User, outcomes: RegisterOutcomes): (r: (Store, RegisterResponse))
    ensures r.1.Registered? || r.1 == ValidationProblem
    ensures r.1.Registered? ==>
      && r.1 == Registered(user.id, user.email, user.accountType, user.businessName)
      && NormalizeKey(user.email) !in store.users
      && r.0.users == store.users[NormalizeKey(user.email) := UserRecord(user, {RegisterRole})]
    ensures OthersUnchanged(store, r.0, NormalizeKey(user.email))
    ensures NormalizeKey(user.email) in store.users ==> r == (store, ValidationProblem)
    ensures r.1.Registered? <==>
      outcomes.createOk && NormalizeKey(user.email) !in store.users
      && (RegisterRole in store.roles || outcomes.createRoleOk) && outcomes.addRoleOk
    ensures OnlyAdds(store, r.0, NormalizeKey(user.email), user)
  {
    var key := NormalizeKey(user.email);
    match CreateUser(store, user, outcomes.createOk)
    case None => (store, ValidationProblem)
    case Some(s1) =>
      var s2 := if RegisterRole in s1.roles || !outcomes.createRoleOk then s1 else s1.(roles := s1.roles + {RegisterRole});
      if RegisterRole !in s2.roles then (s1, ValidationProblem)
      else match AddToRole(s2, key, RegisterRole, outcomes.addRoleOk)
        case None => (s2, ValidationProblem)
        case Some(s3) =>
          assert s3.users == store.users[key := UserRecord(user, {RegisterRole})] by {
            assert s2.users[key].roles + {RegisterRole} == {RegisterRole};
          }
          (s3, Registered(user.id, user.email, user.accountType, user.businessName))
  }

  /** Every user after the change was there before with the same profile, or is `user` under `key`. */
  predicate OnlyAdds(before: Store, after: Store, key: string, user: User)
  {
    forall k :: k in after.users ==>
      (k in before.users && after.users[k].user == before.users[k].user) || (k == key && after.users[k].user == user)
  }

  /** `RegisterUser`: input checks, then the identity steps on the normalised user. */
  function RegisterUser(store: Store, dto: RegisterDto, newId: string, outcomes: RegisterOutcomes): (r: (Store, RegisterResponse))
    ensures IsBlank(dto.email) ==> r == (store, BadRequest("Email is required."))
    ensures !IsBlank(dto.email) && IsBlank(dto.password) ==> r == (store, BadRequest("Password is required."))
    ensures !IsBlank(dto.email) && !IsBlank(dto.password) && FindByEmail(store, dto.email).Some? ==>
      r == (store, BadRequest("Email is already in use."))
    ensures r.1.Registered? ==>
      && r.1 == Registered(newId, Trim(dto.email), Public, NormalizeBusinessName(dto.businessName))
      && NormalizeKey(Trim(dto.email)) !in store.users
      && r.0.users == store.users[NormalizeKey(Trim(dto.email)) := UserRecord(RegisteredUser(dto, newId), {RegisterRole})]
    ensures OthersUnchanged(store, r.0, NormalizeKey(Trim(dto.email)))
    ensures NormalizeKey(Trim(dto.email)) in store.users ==> r.0 == store
  {
    if IsBlank(dto.email) then (store, BadRequest("Email is required."))
    else if IsBlank(dto.password) then (store, BadRequest("Password is required."))
    else if FindByEmail(store, dto.email).Some? then (store, BadRequest("Email is already in use."))
    else Enroll(store, RegisteredUser(dto, newId), outcomes)
  }

  /** Registration keeps the store well formed. */
  lemma RegisterPreservesWellFormed(store: Store, dto: RegisterDto, newId: string, outcomes: RegisterOutcomes)
    requires WellFormed(store)
    ensures WellFormed(RegisterUser(store, dto, newId, outcomes).0)
  {
    var r := RegisterUser(store, dto, newId, outcomes);
    if !IsBlank(dto.email) && !IsBlank(dto.password) && FindByEmail(store, dto.email).None? {
      var user := RegisteredUser(dto, newId);
      assert r == Enroll(store, user, outcomes);
      OnlyAddsWellFormed(store, r.0, NormalizeKey(user.email), user);
    } else {
      assert r.0 == store;
    }
  }

  /** Adding one user under its own key, with user name equal to email, keeps the store well formed. */
  lemma OnlyAddsWellFormed(before: Store, after: Store, key: string, user: User)
    requires WellFormed(before) && OnlyAdds(before, after, key, user)
    requires key == NormalizeKey(user.email) && user.userName == user.email
    ensures WellFormed(after)
  {
    forall k | k in after.users
      ensures k == NormalizeKey(after.users[k].user.email) && after.users[k].user.userName == after.users[k].user.email
    {
      if !(k in before.users && after.users[k].user == before.users[k].user) {
        assert k == key && after.users[k].user == user;
      }
    }
  }

  /** With every identity call succeeding, a fresh trimmed-email registration succeeds. */
  lemma RegisterSucceeds(store: Store, dto: RegisterDto, newId: string)
    requires !IsBlank(dto.email) && !IsBlank(dto.password)
    requires NormalizeKey(Trim(dto.email)) !in store.users && NormalizeKey(dto.email) !in store.users
    ensures RegisterUser(store, dto, newId, RegisterOutcomes(true, true, true)).1.Registered?
  {
  }

  /**
    * The duplicate check looks up the untrimmed email, so a padded copy of a registered
    * email is not reported as "in use"; the identity framework's own unique-email rule
    * then rejects it as a validation problem, and the store is unchanged.
    */
  lemma PaddedDuplicateIsValidationProblem(store: Store, email: string, password: string, newId: string, outcomes: RegisterOutcomes)
    requires !IsBlank(password) && !IsBlank(email) && IsTrimmed(email)
    requires NormalizeKey(email) in store.users
    requires NormalizeKey(" " + email) !in store.users
    ensures var dto := RegisterDto(" " + email, password, None, None, None);
      RegisterUser(store, dto, newId, outcomes) == (store, ValidationProblem)
  {
    TrimLeadingSpace(email);
    assert !IsBlank(" " + email) by {
      var i :| 0 <= i < |email| && !IsSpace(email[i]);
      assert (" " + email)[i + 1] == email[i];
    }
  }

  /** The address's eight wire fields; only the owner's id is left behind, so writing them back changes nothing. */
  function ToAddressDto(a: Address): (d: AddressDto)
    ensures WithDto(a, d) == a
  {
    AddressDto(a.fullName, a.line1, a.line2, a.city, a.state, a.postalCode, a.country, a.phoneNumber)
  }

  /** The eight assignments of `CreateOrUpdate`: every posted field overwritten, the owner kept. */
  function WithDto(a: Address, dto: AddressDto): (r: Address)
    ensures r.userId == a.userId
  {
    a.(fullName := dto.fullName, line1 := dto.line1, line2 := dto.line2, city := dto.city,
       state := dto.state, postalCode := dto.postalCode, country := dto.country, phoneNumber := dto.phoneNumber)
  }

  /** Writing a DTO into any address and reading it back gives the DTO. */
  lemma DtoWriteRead(a: Address, dto: AddressDto)
    ensures ToAddressDto(WithDto(a, dto)) == dto
  {
  }

  datatype AddressResponse = Unauthorized | AddressBadRequest(message: string) | AddressOk(address: AddressDto)

  /**
    * `CreateOrUpdate`: find the signed-in user, create an empty address if there is none,
    * overwrite all eight fields and save. A failed save changes nothing.
    */
  function CreateOrUpdate(store: Store, userName: string, dto: AddressDto, updateOk: bool): (r: (Store, AddressResponse))
    ensures FindByUserName(store, userName).None? ==> r == (store, Unauthorized)
    ensures !updateOk ==> r.0 == store
    ensures FindByUserName(store, userName).Some? ==> (r.1.AddressOk? <==> updateOk)
    ensures FindByUserName(store, userName).Some? && !updateOk ==> r.1 == AddressBadRequest("Problem updating user address")
    ensures r.1.AddressOk? ==> r.1.address == dto
    ensures r.1.AddressOk? ==> var k := FindByUserName(store, userName).value;
      && r.0.roles == store.roles
      && OthersUnchanged(store, r.0, k)
      && k in r.0.users
      && r.0.users[k].roles == store.users[k].roles
      && r.0.users[k].user == store.users[k].user.(shippingAddress := r.0.users[k].user.shippingAddress)
      && r.0.users[k].user.shippingAddress.Some?
      && ToAddressDto(r.0.users[k].user.shippingAddress.value) == dto
      && r.0.users[k].user.shippingAddress.value.userId ==
         (if store.users[k].user.shippingAddress.Some? then store.users[k].user.shippingAddress.value.userId
          else store.users[k].user.id)
  {
    match FindByUserName(store, userName)
    case None => (store, Unauthorized)
    case Some(k) =>
      var rec := store.users[k];
      var current := if rec.user.shippingAddress.Some? then rec.user.shippingAddress.value else NewAddress(rec.user.id);
      var updated := WithDto(current, dto);
      DtoWriteRead(current, dto);
      if !updateOk then (store, AddressBadRequest("Problem updating user address"))
      else
        var s := store.(users := store.users[k := rec.(user := rec.user.(shippingAddress := Some(updated)))]);
        (s, AddressOk(ToAddressDto(updated)))
  }

  /** `GetSavedAddress`: the signed-in user's address, or nothing for a user without one (or no such user). */
  function GetSavedAddress(store: Store, userName: string): (r: Option<AddressDto>)
    ensures r.Some? ==> FindByUserName(store, userName).Some?
    ensures r.Some? <==> FindByUserName(store, userName).Some? && store.users[FindByUserName(store, userName).value].user.shippingAddress.Some?
    ensures r.Some? ==> r.value == ToAddressDto(store.users[FindByUserName(store, userName).value].user.shippingAddress.value)
  {
    match FindByUserName(store, userName)
    case None => None
    case Some(k) =>
      if store.users[k].user.shippingAddress.Some? then Some(ToAddressDto(store.users[k].user.shippingAddress.value)) else None
  }

  /** Saving an address and reading it back returns what was saved. */
  lemma SaveThenGetAddress(store: Store, userName: string, dto: AddressDto)
    requires CreateOrUpdate(store, userName, dto, true).1.AddressOk?
    ensures GetSavedAddress(CreateOrUpdate(store, userName, dto, true).0, userName) == Some(dto)
  {
  }

  /** A second save of the same address changes nothing more. */
  lemma SaveAddressIdempotent(store: Store, userName: string, dto: AddressDto)
    requires CreateOrUpdate(store, userName, dto, true).1.AddressOk?
    ensures var s1 := CreateOrUpdate(store, userName, dto, true).0;
      CreateOrUpdate(s1, userName, dto, true) == (s1, AddressOk(dto))
  {
    var k := NormalizeKey(userName);
    var s1 := CreateOrUpdate(store, userName, dto, true).0;
    assert FindByUserName(s1, userName) == Some(k);
    var rec := s1.users[k];
    var a := rec.user.shippingAddress.value;
    assert WithDto(a, ToAddressDto(a)) == a;
    assert rec.(user := rec.user.(shippingAddress := Some(a))) == rec;
    assert s1.users[k := rec] == s1.users;
  }
}
