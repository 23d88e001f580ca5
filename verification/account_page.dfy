/**
  * The account screen's pure helpers (client/src/features/account/AccountPage.tsx):
  * recognising an expired session, the one-line store address, the account
  * type and tier captions, the business and admin switches, and the avatar
  * initial.
  */
module AccountPage {
  import opened Wrappers
  import opened Text
  import opened Entities
  import Queries

  /** An RTK Query error's `status`: an HTTP code or one of the library's named kinds. */
  datatype ErrorStatus = HttpCode(code: int) | Named(name: string)

  /** `isUnauthorized`: the status, or the original status when there is none, is 401. */
  function IsUnauthorized(status: Option<ErrorStatus>, originalStatus: Option<int>): (r: bool)
    ensures status.Some? ==> (r <==> status.value == HttpCode(401))
    ensures status.None? ==> (r <==> originalStatus == Some(401))
  {
    match status
    case Some(s) => s == HttpCode(401)
    case None => originalStatus == Some(401)
  }

  /** The address fields the formatter reads; each may be null. */
  datatype AddressFields = AddressFields(
    line1: Option<string>,
    line2: Option<string>,
    city: Option<string>,
    state: Option<string>,
    postalCode: Option<string>,
    country: Option<string>
  )

  /** A value `filter(Boolean)` keeps: present and not the empty string. */
  predicate Filled(o: Option<string>)
  {
    o.Some? && o.value != ""
  }

  /** `filter(Boolean)` on optional strings: drops missing and empty values, keeps white space. */
  function Present(xs: seq<Option<string>>): (r: seq<string>)
    ensures forall s :: s in r <==> Some(s) in xs && s != ""
  {
    if |xs| == 0 then []
    else if xs[0].None? || xs[0].value == "" then Present(xs[1..])
    else [xs[0].value] + Present(xs[1..])
  }

  /** `Present` is the filter followed by the unwrapping: kept values keep their order and their repeats. */
  lemma {:induction false} PresentIsSelectWhere(xs: seq<Option<string>>)
    ensures Present(xs) == Queries.Select(Queries.Where(xs, Filled), (o: Option<string>) => o.GetOr(""))
    decreases |xs|
  {
    if |xs| > 0 {
      PresentIsSelectWhere(xs[1..]);
      var rest := Queries.Where(xs[1..], Filled);
      if Filled(xs[0]) {
        assert Queries.Where(xs, Filled) == [xs[0]] + rest;
        Queries.SelectCons(xs[0], rest, (o: Option<string>) => o.GetOr(""));
      } else {
        assert Queries.Where(xs, Filled) == rest;
      }
    }
  }

  /** `[city, state, postalCode].filter(Boolean).join(", ")`. */
  function CityLine(city: Option<string>, state: Option<string>, postalCode: Option<string>): string
  {
    Join(Present([city, state, postalCode]), ", ")
  }

  /** City and state are joined in that order, and a missing postal code adds nothing. */
  lemma CityLineOrder(city: string, state: string)
    requires city != "" && state != ""
    ensures CityLine(Some(city), Some(state), None) == city + ", " + state
  {
    var xs := [Some(city), Some(state), None];
    var last: seq<Option<string>> := [None];
    assert xs[1..] == [Some(state), None] && xs[1..][1..] == last && last[1..] == [];
    assert Present(last) == [];
    assert Present(xs[1..]) == [state] + [];
    assert Present(xs) == [city] + [state];
    var ys := [city, state];
    assert ys[1..] == [state];
    assert Join(ys, ", ") == city + ", " + Join([state], ", ");
  }

  /** A city made of blanks is kept in the middle line, unlike a blank line of its own. */
  lemma CityLineKeepsBlanks()
    ensures CityLine(Some(" "), Some("TX"), None) == " , TX"
  {
    assert Present([Some(" "), Some("TX"), None]) == [" ", "TX"];
  }

  /** The four address lines in display order, a missing one as "". */
  function Lines(a: AddressFields): seq<string>
  {
    [a.line1.GetOr(""), a.line2.GetOr(""), CityLine(a.city, a.state, a.postalCode), a.country.GetOr("")]
  }

  /** `formatStoreAddress`: the non-blank lines, trimmed and joined with " • "; nothing when there is no address or every line is blank. */
  function FormatStoreAddress(a: Option<AddressFields>): (r: Option<string>)
    ensures r.None? <==> a.None? || forall i :: 0 <= i < 4 ==> IsBlank(Lines(a.value)[i])
    ensures r.Some? ==> r.value == Join(KeepTrimmed(Lines(a.value)), " • ")
  {
    if a.None? then None
    else
      var parts := KeepTrimmed(Lines(a.value));
      if |parts| == 0 then None else Some(Join(parts, " • "))
  }

  /** A formatted address is never empty and never starts or ends with white space. */
  lemma FormattedAddressIsTrimmed(a: Option<AddressFields>)
    requires FormatStoreAddress(a).Some?
    ensures var s := FormatStoreAddress(a).value; |s| > 0 && IsTrimmed(s)
  {
    var parts := KeepTrimmed(Lines(a.value));
    var s := Join(parts, " • ");
    JoinStartsWithHead(parts, " • ");
    JoinEndsWithLast(parts, " • ");
    var l := parts[|parts| - 1];
    assert s[0] == s[..|parts[0]|][0] == parts[0][0];
    assert s[|s| - 1] == s[|s| - |l|..][|l| - 1] == l[|l| - 1];
  }

  /** `accountTypeLabel`. */
  function AccountTypeLabel(t: Option<int>): (r: string)
    ensures t == Some(1) <==> r == "Business"
    ensures t == Some(7) <==> r == "Admin"
    ensures r == "Public" <==> t != Some(1) && t != Some(7)
  {
    match t
    case Some(1) => "Business"
    case Some(7) => "Admin"
    case _ => "Public"
  }

  /** `tierLabel`. */
  function TierLabel(t: Option<int>): (r: string)
    ensures t == Some(0) <==> r == "Platinum"
    ensures t == Some(1) <==> r == "Gold"
    ensures t == Some(2) <==> r == "Silver"
    ensures r == "Bronze" <==> t != Some(0) && t != Some(1) && t != Some(2)
  {
    match t
    case Some(0) => "Platinum"
    case Some(1) => "Gold"
    case Some(2) => "Silver"
    case _ => "Bronze"
  }

  /** The captions name the server's enums by their serialised codes. */
  lemma LabelsMatchServerEnums(a: AccountType, t: Tier)
    ensures AccountTypeLabel(Some(a.Code())) == match a case Public => "Public" case Business => "Business" case Admin => "Admin"
    ensures TierLabel(Some(t.Code())) == match t case Bronze => "Bronze" case Silver => "Silver" case Gold => "Gold" case Platinum => "Platinum"
  {
  }

  /** `isBusiness`: business and admin accounts get the business screen. */
  predicate IsBusiness(accountType: Option<int>)
    ensures IsBusiness(accountType) <==> AccountTypeLabel(accountType) != "Public"
  {
    accountType == Some(1) || accountType == Some(7)
  }

  /** `isAdmin`. */
  predicate IsAdmin(accountType: Option<int>)
    ensures IsAdmin(accountType) <==> AccountTypeLabel(accountType) == "Admin"
    ensures IsAdmin(accountType) ==> IsBusiness(accountType)
  {
    accountType == Some(7)
  }

  /** Every admin is shown the business screen, and the business screen goes exactly with a non-public caption. */
  lemma AdminIsBusiness(accountType: Option<int>)
    ensures IsAdmin(accountType) ==> IsBusiness(accountType)
    ensures IsBusiness(accountType) <==> AccountTypeLabel(accountType) != "Public"
  {
  }

  /** `ownerName`: the address's full name unless empty, else the business name (or "Business Account") for business accounts and "Public User" otherwise. */
  function OwnerName(fullName: Option<string>, accountType: Option<int>, businessName: Option<string>): (r: string)
    ensures fullName.Some? && fullName.value != "" ==> r == fullName.value
    ensures (fullName.None? || fullName.value == "") && !IsBusiness(accountType) ==> r == "Public User"
    ensures (fullName.None? || fullName.value == "") && IsBusiness(accountType) && businessName.Some? ==> r == businessName.value
    ensures (fullName.None? || fullName.value == "") && IsBusiness(accountType) && businessName.None? ==> r == "Business Account"
  {
    if fullName.Some? && fullName.value != "" then fullName.value
    else if IsBusiness(accountType) then businessName.GetOr("Business Account")
    else "Public User"
  }

  /** An empty name is treated as a missing one, and the owner line is never empty unless an empty business name was stored. */
  lemma OwnerNameFallbacks(fullName: Option<string>, accountType: Option<int>, businessName: Option<string>)
    ensures OwnerName(Some(""), accountType, businessName) == OwnerName(None, accountType, businessName)
    ensures businessName != Some("") ==> OwnerName(fullName, accountType, businessName) != ""
    ensures OwnerName(fullName, accountType, businessName) == "" ==> IsBusiness(accountType) && businessName == Some("")
  {
  }

  /** The avatar placeholder. */
  const AvatarPlaceholder := "\U{1F464}"

  /** `initials`: the first character of the trimmed name in capitals, or the placeholder. */
  function Initials(ownerName: string): (r: string)
    ensures |r| == 1
    ensures IsBlank(ownerName) ==> r == AvatarPlaceholder
    ensures !IsBlank(ownerName) ==> r == [UpperChar(Trim(ownerName)[0])]
  {
    var s := Trim(ownerName);
    if |s| == 0 then AvatarPlaceholder
    else
      assert !IsSpace(s[0]);
      [UpperChar(s[0])]
  }
}
