/** The form validation of `pools/pool_views.py`: the scale-up form's
    consistency rule, the address and username validators of the form that
    registers an existing pool, and that form's uniqueness checks against
    the pool table. */
module PoolForms {
  import opened Text
  import CondorTools

  datatype Validation = Valid | Invalid(message: string)

  // ---------------------------------------------------------------------
  // EC2PoolScaleUpForm.clean

  const NoValueMessage := "You must enter a value."
  const OnlyOneMessage := "You must enter only one value."
  const PositiveMessage := "You must enter a value greater than 0."

  /** Python truthiness of an optional integer field: an empty field (None)
      and 0 are both false. */
  predicate Given(v: Option<int>) {
    v.Some? && v.value != 0
  }

  /** The rule the scale-up form enforces: exactly one of the two fields is
      given, and that one is positive. */
  predicate ExactlyOnePositive(nodesToAdd: Option<int>, totalPoolSize: Option<int>) {
    || (Given(nodesToAdd) && !Given(totalPoolSize) && nodesToAdd.value > 0)
    || (!Given(nodesToAdd) && Given(totalPoolSize) && totalPoolSize.value > 0)
  }

  /** `EC2PoolScaleUpForm.clean`: the checks run in the source's order and
      the first failing one gives the message. */
  function CleanScaleUp(nodesToAdd: Option<int>, totalPoolSize: Option<int>): (r: Validation)
    ensures r.Valid? <==> ExactlyOnePositive(nodesToAdd, totalPoolSize)
    ensures r == Invalid(NoValueMessage) <==> !Given(nodesToAdd) && !Given(totalPoolSize)
    ensures r == Invalid(OnlyOneMessage) <==> Given(nodesToAdd) && Given(totalPoolSize)
    ensures r.Invalid? ==> r.message in {NoValueMessage, OnlyOneMessage, PositiveMessage}
  {
    if !Given(nodesToAdd) && !Given(totalPoolSize) then Invalid(NoValueMessage)
    else if Given(nodesToAdd) && Given(totalPoolSize) then Invalid(OnlyOneMessage)
    else if Given(nodesToAdd) && !(nodesToAdd.value > 0) then Invalid(PositiveMessage)
    else if Given(totalPoolSize) && !(totalPoolSize.value > 0) then Invalid(PositiveMessage)
    else Valid
  }

  // ---------------------------------------------------------------------
  // The address validator: ^[a-z0-9-.]+(:([0-9]+)){0,1}$

  /** `[a-z0-9-.]` */
  predicate IsHostChar(c: char) {
    IsLower(c) || IsDigit(c) || c == '-' || c == '.'
  }

  predicate AllHostChars(s: string) {
    forall i :: 0 <= i < |s| ==> IsHostChar(s[i])
  }

  /** The length of the maximal run of host characters at the start of `s`. */
  function HostRun(s: string): (k: nat)
    ensures k <= |s| && AllHostChars(s[..k])
    ensures k == |s| || !IsHostChar(s[k])
    decreases |s|
  {
    if s != [] && IsHostChar(s[0]) then
      var k := 1 + HostRun(s[1..]);
      assert s[..k] == [s[0]] + s[1..][..k - 1];
      k
    else 0
  }

  /** The validator as a scanner: the host run, then nothing or ':' and digits. */
  predicate AddressAccepted(s: string) {
    var k := HostRun(s);
    k > 0 && (k == |s| || (s[k] == ':' && IsDigits(s[k + 1..])))
  }

  /** The pattern read as a language: a non-empty host part, optionally
      followed by ':' and a non-empty port number. */
  predicate IsHostPort(s: string, k: nat) {
    0 < k <= |s| && AllHostChars(s[..k]) && (k == |s| || (s[k] == ':' && IsDigits(s[k + 1..])))
  }

  predicate AddressShape(s: string) {
    exists k: nat :: k <= |s| && IsHostPort(s, k)
  }

  /** The scanner accepts exactly the strings of the pattern's language. */
  lemma AddressAcceptedIff(s: string)
    ensures AddressAccepted(s) <==> AddressShape(s)
  {
    var h := HostRun(s);
    if AddressAccepted(s) {
      assert IsHostPort(s, h);
    }
    if AddressShape(s) {
      var k: nat :| k <= |s| && IsHostPort(s, k);
      assert h == k;
    }
  }

  /** A host name with an optional port is accepted, whatever the host is. */
  lemma AddressCompose(host: string, port: Option<string>)
    requires host != [] && AllHostChars(host)
    requires port.Some? ==> IsDigits(port.value)
    ensures AddressAccepted(host + (if port.Some? then ":" + port.value else ""))
  {

  }

  // ---------------------------------------------------------------------
  // The username validator: ^[A-Za-z0-9]+(?:[_-][A-Za-z0-9]+)*$

  /** `[_-]` */
  predicate IsSeparator(c: char) {
    c == '_' || c == '-'
  }

  predicate AllAlnum(s: string) {
    forall i :: 0 <= i < |s| ==> IsAlnum(s[i])
  }

  /** The length of the maximal run of letters and digits at the start of `s`. */
  function AlnumRun(s: string): (k: nat)
    ensures k <= |s| && AllAlnum(s[..k])
    ensures k == |s| || !IsAlnum(s[k])
    decreases |s|
  {
    if s != [] && IsAlnum(s[0]) then
      var k := 1 + AlnumRun(s[1..]);
      assert s[..k] == [s[0]] + s[1..][..k - 1];
      k
    else 0
  }

  /** `(?:[_-][A-Za-z0-9]+)*` consuming all of `s`. */
  predicate SeparatedRuns(s: string)
    decreases |s|
  {
    s == [] ||
    (IsSeparator(s[0]) &&
     var k := AlnumRun(s[1..]);
     k > 0 && SeparatedRuns(s[1 + k..]))
  }

  /** The validator as a scanner: one alphanumeric run, then separated runs. */
  predicate UsernameAccepted(s: string) {
    var k := AlnumRun(s);
    k > 0 && SeparatedRuns(s[k..])
  }

  /** Character-level reference: letters, digits and separators only, the
      first and last characters are no separators and no two separators are
      adjacent. */
  predicate UsernameShape(s: string) {
    && |s| > 0 && IsAlnum(s[0]) && IsAlnum(s[|s| - 1])
    && (forall i :: 0 <= i < |s| ==> IsAlnum(s[i]) || IsSeparator(s[i]))
    && (forall i :: 0 <= i < |s| - 1 ==> !IsSeparator(s[i]) || !IsSeparator(s[i + 1]))
  }

  /** A string made of an alphanumeric run `s[..k]` followed by a
      non-alphanumeric character has the reference shape exactly when that
      character is a separator and what follows it has the shape. */
  lemma ShapeAfterRun(s: string, k: nat)
    requires 0 < k < |s| && AllAlnum(s[..k]) && !IsAlnum(s[k])
    ensures UsernameShape(s) <==> IsSeparator(s[k]) && UsernameShape(s[k + 1..])
  {

  }

  /** The scanner accepts exactly the strings of the reference shape. */
  lemma {:induction false} UsernameAcceptedIff(s: string)
    ensures UsernameAccepted(s) <==> UsernameShape(s)
    decreases |s|
  {
    var k := AlnumRun(s);
    if k == 0 {
      if s != [] {
        assert !IsAlnum(s[0]);
      }
    } else if k == |s| {
      assert s[..k] == s && s[k..] == [];
      assert forall i :: 0 <= i < |s| ==> s[..k][i] == s[i];
    } else {
      var t := s[k..];
      assert t[0] == s[k] && t[1..] == s[k + 1..];
      UsernameAcceptedIff(s[k + 1..]);
      ShapeAfterRun(s, k);
    }
  }

  // ---------------------------------------------------------------------
  // AddBoscoPoolForm

  /** A BOSCO pool record as the pool table stores it; `address` is the
      `username@host` the gateway knows the pool by. */
  datatype BoscoPool = BoscoPool(name: string, user: nat, platform: string, address: string, poolType: string)

  /** What the user enters in the form that registers an existing pool. */
  datatype PoolFormInput = PoolFormInput(name: string, address: string, username: string,
                                         poolType: string, platform: string, sshKey: string)

  const NameTakenMessage := "A pool with this name already exists"
  const CredentialsTakenMessage := "A pool has already been added with these access credentials"

  /** The `platform` choices. */
  predicate IsPlatformChoice(p: string) {
    p == "DEB6" || p == "RH5" || p == "RH6"
  }

  /** A required character field of at most `maxLength` characters. */
  predicate CharFieldValid(v: string, maxLength: nat) {
    v != [] && |v| <= maxLength
  }

  /** Every field passes its own checks (required, maximal length, validator
      or choice list). */
  predicate FieldsValid(f: PoolFormInput) {
    && CharFieldValid(f.name, 100)
    && CharFieldValid(f.address, 200) && AddressAccepted(f.address)
    && CharFieldValid(f.username, 50) && UsernameAccepted(f.username)
    && CondorTools.IsPoolType(f.poolType)
    && IsPlatformChoice(f.platform)
    && CharFieldValid(f.sshKey, 10000)
  }

  /** The field checks in terms of the validators' languages: each field is
      required and within its maximal length, the address and username
      have the shapes of their patterns, and the two choice fields hold one
      of their choices. */
  lemma FieldsValidIff(f: PoolFormInput)
    ensures FieldsValid(f) <==>
              && 0 < |f.name| <= 100
              && 0 < |f.address| <= 200 && AddressShape(f.address)
              && 0 < |f.username| <= 50 && UsernameShape(f.username)
              && f.poolType in {"condor", "pbs", "lsf", "sge"}
              && f.platform in {"DEB6", "RH5", "RH6"}
              && 0 < |f.sshKey| <= 10000
  {
    AddressAcceptedIff(f.address);
    UsernameAcceptedIff(f.username);
  }

  /** The address a pool registered through the form is stored under. */
  function CredentialAddress(username: string, address: string): string {
    username + "@" + address
  }

  predicate NameTaken(pools: map<nat, BoscoPool>, user: nat, name: string) {
    exists id :: id in pools && pools[id].user == user && pools[id].name == name
  }

  predicate AddressTaken(pools: map<nat, BoscoPool>, address: string) {
    exists id :: id in pools && pools[id].address == address
  }

  /** Python truthiness of an optional string: absent or empty is false. */
  predicate GivenText(v: Option<string>) {
    v.Some? && v.value != []
  }

  /** `AddBoscoPoolForm.clean`, given the cleaned values of the fields that
      passed their own checks (None for a field that did not). The name is
      unique per user; the credentials `username@address` are unique over
      the whole table, whoever added them. */
  function CleanAddPool(pools: map<nat, BoscoPool>, user: nat, name: Option<string>,
                        address: Option<string>, username: Option<string>): (r: Validation)
    ensures r == Invalid(NameTakenMessage) <==> name.Some? && NameTaken(pools, user, name.value)
    ensures r == Invalid(CredentialsTakenMessage) <==>
              !(name.Some? && NameTaken(pools, user, name.value)) && GivenText(address) && GivenText(username)
              && AddressTaken(pools, CredentialAddress(username.value, address.value))
    ensures r.Valid? || r == Invalid(NameTakenMessage) || r == Invalid(CredentialsTakenMessage)
  {
    if name.Some? && NameTaken(pools, user, name.value) then Invalid(NameTakenMessage)
    else if GivenText(address) && GivenText(username)
            && AddressTaken(pools, CredentialAddress(username.value, address.value)) then
      Invalid(CredentialsTakenMessage)
    else Valid
  }

  /** `form.is_valid()`: no field error and no error from `clean`. */
  predicate AddPoolFormValid(pools: map<nat, BoscoPool>, user: nat, f: PoolFormInput) {
    FieldsValid(f) && CleanAddPool(pools, user, Some(f.name), Some(f.address), Some(f.username)).Valid?
  }

  /** The form is valid exactly when every field passes its own checks, the
      user has no pool of that name, and nobody has registered the
      credentials `username@address`. */
  lemma AddPoolFormValidIff(pools: map<nat, BoscoPool>, user: nat, f: PoolFormInput)
    ensures AddPoolFormValid(pools, user, f) <==>
              && FieldsValid(f) && !NameTaken(pools, user, f.name)
              && !AddressTaken(pools, CredentialAddress(f.username, f.address))
  {
    if FieldsValid(f) {
      assert GivenText(Some(f.address)) && GivenText(Some(f.username));
    }
  }

  /** Pool names are unique per user. */
  predicate UniqueNames(pools: map<nat, BoscoPool>) {
    forall i, j :: i in pools && j in pools && i != j && pools[i].user == pools[j].user ==> pools[i].name != pools[j].name
  }

  /** Pool addresses are unique over the whole table. */
  predicate UniqueAddresses(pools: map<nat, BoscoPool>) {
    forall i, j :: i in pools && j in pools && i != j ==> pools[i].address != pools[j].address
  }

  /** The record the form creates. */
  function NewPool(user: nat, f: PoolFormInput): BoscoPool {
    BoscoPool(f.name, user, f.platform, CredentialAddress(f.username, f.address), f.poolType)
  }

  /** A valid form names neither a pool of the same user nor credentials
      already in the table. */
  lemma ValidFormIsFree(pools: map<nat, BoscoPool>, user: nat, f: PoolFormInput)
    requires AddPoolFormValid(pools, user, f)
    ensures !NameTaken(pools, user, f.name) && !AddressTaken(pools, CredentialAddress(f.username, f.address))
    ensures NewPool(user, f).user == user && NewPool(user, f).name == f.name
  {
    assert GivenText(Some(f.address)) && GivenText(Some(f.username));
  }

  /** Inserting a record whose name and address are free keeps both
      uniqueness properties. */
  lemma InsertKeepsUnique(pools: map<nat, BoscoPool>, id: nat, p: BoscoPool)
    requires UniqueNames(pools) && UniqueAddresses(pools) && id !in pools
    requires !NameTaken(pools, p.user, p.name) && !AddressTaken(pools, p.address)
    ensures UniqueNames(pools[id := p]) && UniqueAddresses(pools[id := p])
  {

  }

  /** Removing a pool keeps both uniqueness properties. */
  lemma RemovalKeepsUnique(pools: map<nat, BoscoPool>, id: nat)
    requires UniqueNames(pools) && UniqueAddresses(pools)
    ensures UniqueNames(pools - {id}) && UniqueAddresses(pools - {id})
  {
  }
}
