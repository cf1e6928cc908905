/** The address book (controllers/addressController.js, models/addressModel.js):
    a table of addresses, each owned by a user, of which at most one per
    user should carry the default flag. Adding or updating with the flag,
    and setting a default, first clear the flag on all of the user's
    addresses (`updateMany`), then write the one address. A save writes
    only the fields whose value differs from the one loaded, and the
    schema casts the flag and checks the address type before writing. */
module AddressBook {
  import opened Common

  const AddressTypes: set<string> := {"Home", "Work", "Shipping", "Billing"}
  const DefaultType: string := "Home"

  datatype Address = Address(
    user: string,
    line1: string,
    line2: string,
    city: string,
    state: string,
    postalCode: string,
    country: string,
    addressType: string,
    isDefault: bool)

  /** Address id -> address. */
  type Table = map<nat, Address>

  /** A value of `isDefault` in a request body: missing, a boolean, or
      text. */
  datatype Flag = FlagAbsent | FlagBool(b: bool) | FlagText(s: string)

  predicate FlagTruthy(f: Flag) {
    match f
    case FlagAbsent => false
    case FlagBool(b) => b
    case FlagText(s) => s != ""
  }

  /** The schema's Boolean cast of a present flag: `true`, `"true"`, `"1"`,
      `"yes"` are true, `false`, `"false"`, `"0"`, `"no"` are false, and any
      other text is a cast error (`None`). A missing flag takes the default
      `false`. */
  function CastFlag(f: Flag): Option<bool> {
    match f
    case FlagAbsent => Some(false)
    case FlagBool(b) => Some(b)
    case FlagText(s) =>
      if s == "true" || s == "1" || s == "yes" then Some(true)
      else if s == "false" || s == "0" || s == "no" then Some(false)
      else None
  }

  /** A flag that casts to true is truthy. */
  lemma TrueFlagIsTruthy(f: Flag)
    requires CastFlag(f) == Some(true)
    ensures FlagTruthy(f)
  {
  }

  /** The fields of a request body; empty text is a missing field. */
  datatype AddressInput = AddressInput(
    line1: string,
    line2: string,
    city: string,
    state: string,
    postalCode: string,
    country: string,
    addressType: Option<string>,
    isDefault: Flag)

  /** How a request ends. `Rejected` is the schema's refusal to save. */
  datatype Status = Done | BadRequest | NotFound | NotAuthorized | Rejected

  /** At most one default address per user. */
  predicate OneDefaultPerUser(rows: Table) {
    forall a, b :: a in rows && b in rows && rows[a].user == rows[b].user && rows[a].isDefault && rows[b].isDefault ==> a == b
  }

  /** The user's addresses that are default. */
  function Defaults(rows: Table, user: string): set<nat> {
    set id | id in rows && rows[id].user == user && rows[id].isDefault
  }

  /** `Address.updateMany({ user }, { isDefault: false })`. */
  function ClearDefaults(rows: Table, user: string): (r: Table)
    ensures r.Keys == rows.Keys
    ensures forall id :: id in rows && rows[id].user == user ==> r[id] == rows[id].(isDefault := false)
    ensures forall id :: id in rows && rows[id].user != user ==> r[id] == rows[id]
  {
    map id | id in rows :: if rows[id].user == user then rows[id].(isDefault := false) else rows[id]
  }

  /** Clearing a user's flags keeps at most one default per user and leaves
      that user with none. */
  lemma ClearDefaultsMeaning(rows: Table, user: string)
    requires OneDefaultPerUser(rows)
    ensures OneDefaultPerUser(ClearDefaults(rows, user))
  {
  }

  lemma ClearLeavesNoDefault(rows: Table, user: string)
    ensures Defaults(ClearDefaults(rows, user), user) == {}
  {
  }

  function Or(given: string, current: string): string {
    if given != "" then given else current
  }

  // ------------------------------------------------------------------ add

  function Missing(input: AddressInput): bool {
    input.line1 == "" || input.city == "" || input.state == "" || input.postalCode == "" || input.country == ""
  }

  /** `addAddress` for `user`, the new address taking id `nextId`. */
  function AddSpec(rows: Table, nextId: nat, user: string, input: AddressInput): (Status, Table) {
    if Missing(input) then (BadRequest, rows)
    else
      var cleared := if FlagTruthy(input.isDefault) then ClearDefaults(rows, user) else rows;
      var addressType := if input.addressType.Some? then input.addressType.value else DefaultType;
      var flag := CastFlag(input.isDefault);
      if addressType !in AddressTypes || flag.None? then (Rejected, cleared)
      else (Done, cleared[nextId := Address(user, input.line1, input.line2, input.city, input.state,
                                            input.postalCode, input.country, addressType, flag.value)])
  }

  /** A missing required field is refused with nothing changed. A save
      happens exactly when the type is one of the four and the flag casts;
      the new address then holds every given field, the type `Home` when
      none is given, and the cast flag (`false` when none is given). A
      truthy flag clears the user's defaults first, and stays cleared even
      when the schema then rejects the save; other addresses keep all else,
      and other users' addresses are untouched. */
  lemma AddMeaning(rows: Table, nextId: nat, user: string, input: AddressInput)
    requires nextId !in rows
    ensures Missing(input) ==> AddSpec(rows, nextId, user, input) == (BadRequest, rows)
    ensures var (status, _) := AddSpec(rows, nextId, user, input);
      var addressType := if input.addressType.Some? then input.addressType.value else DefaultType;
      !Missing(input) ==> (status == Done <==> addressType in AddressTypes && CastFlag(input.isDefault).Some?)
    ensures var (status, after) := AddSpec(rows, nextId, user, input);
      status == Done ==> (nextId in after && after[nextId].user == user &&
        after[nextId].line1 == input.line1 && after[nextId].line2 == input.line2 &&
        after[nextId].city == input.city && after[nextId].state == input.state &&
        after[nextId].postalCode == input.postalCode && after[nextId].country == input.country &&
        (input.addressType.Some? ==> after[nextId].addressType == input.addressType.value) &&
        (input.addressType.None? ==> after[nextId].addressType == DefaultType) &&
        CastFlag(input.isDefault) == Some(after[nextId].isDefault) &&
        (input.isDefault == FlagAbsent ==> !after[nextId].isDefault))
    ensures var (status, after) := AddSpec(rows, nextId, user, input);
      status != BadRequest ==>
        (forall id :: id in rows ==>
           id in after &&
           after[id] == (if FlagTruthy(input.isDefault) && rows[id].user == user then rows[id].(isDefault := false) else rows[id])) &&
        (status == Rejected ==> after.Keys == rows.Keys)
    ensures var (status, after) := AddSpec(rows, nextId, user, input);
      forall id :: id in rows && rows[id].user != user ==> id in after && after[id] == rows[id]
  {
  }

  /** The text `"false"` is truthy but casts to `false`: adding a
      non-default address this way still clears the user's default, and
      leaves the user with none. */
  lemma FalseTextClearsDefault(rows: Table, nextId: nat, user: string, input: AddressInput)
    requires nextId !in rows && !Missing(input) && input.addressType.None? && input.isDefault == FlagText("false")
    ensures var (status, after) := AddSpec(rows, nextId, user, input);
      status == Done && Defaults(after, user) == {}
  {
    var (status, after) := AddSpec(rows, nextId, user, input);
    ClearLeavesNoDefault(rows, user);
    assert "false" != "true" && "false" != "1" && "false" != "yes";
    assert after == ClearDefaults(rows, user)[nextId := after[nextId]];
  }

  /** Adding keeps at most one default per user, and a new default address
      is its user's only default. */
  lemma AddKeepsOneDefault(rows: Table, nextId: nat, user: string, input: AddressInput)
    requires OneDefaultPerUser(rows) && forall id :: id in rows ==> id < nextId
    ensures OneDefaultPerUser(AddSpec(rows, nextId, user, input).1)
    ensures var (status, after) := AddSpec(rows, nextId, user, input);
      status == Done && after[nextId].isDefault ==> Defaults(after, user) == {nextId}
  {
    if !Missing(input) {
      var flag := CastFlag(input.isDefault);
      if flag == Some(true) {
        TrueFlagIsTruthy(input.isDefault);
      }
      var cleared := if FlagTruthy(input.isDefault) then ClearDefaults(rows, user) else rows;
      ClearDefaultsMeaning(rows, user);
      ClearLeavesNoDefault(rows, user);
      assert nextId !in cleared;
    }
  }

  // --------------------------------------------------------------- update

  /** The checks `updateAddress` and `deleteAddress` make first. */
  function Check(rows: Table, id: nat, user: string): Status {
    if id !in rows then NotFound
    else if rows[id].user != user then NotAuthorized
    else Done
  }

  /** The address after the field-by-field merge, with `flag` as its
      (cast) default flag. */
  function Merge(current: Address, input: AddressInput, flag: bool): Address {
    Address(current.user,
            Or(input.line1, current.line1),
            Or(input.line2, current.line2),
            Or(input.city, current.city),
            Or(input.state, current.state),
            Or(input.postalCode, current.postalCode),
            Or(input.country, current.country),
            if input.addressType.Some? && input.addressType.value != "" then input.addressType.value else current.addressType,
            flag)
  }

  /** The flag the merge assigns: the body's, cast, when it supplies one,
      else the address's own. */
  function MergedFlag(current: Address, input: AddressInput): Option<bool> {
    if input.isDefault == FlagAbsent then Some(current.isDefault) else CastFlag(input.isDefault)
  }

  /** `updateAddress` given when to clear the user's other defaults. */
  function UpdateWith(rows: Table, id: nat, user: string, input: AddressInput, clear: bool): (Status, Table)
    requires Check(rows, id, user) == Done
  {
    var current := rows[id];
    var cleared := if clear then ClearDefaults(rows, user) else rows;
    var flag := MergedFlag(current, input);
    var merged := Merge(current, input, if flag.Some? then flag.value else false);
    if merged.addressType !in AddressTypes || flag.None? then (Rejected, cleared)
    else (Done, cleared[id := merged])
  }

  /** When the update as written clears the user's defaults: the body's
      flag is the boolean `true` (`=== true`) and the address is not the
      default, although the text `"true"` is also saved as true. */
  predicate ClearsAsWritten(current: Address, input: AddressInput) {
    input.isDefault == FlagBool(true) && !current.isDefault
  }

  /** When the intended update clears them: the flag will be saved as true
      on an address that is not the default. */
  predicate ClearsIntended(current: Address, input: AddressInput) {
    input.isDefault != FlagAbsent && CastFlag(input.isDefault) == Some(true) && !current.isDefault
  }

  /** `updateAddress` as written. */
  function UpdateAsWritten(rows: Table, id: nat, user: string, input: AddressInput): (Status, Table) {
    if Check(rows, id, user) != Done then (Check(rows, id, user), rows)
    else UpdateWith(rows, id, user, input, ClearsAsWritten(rows[id], input))
  }

  /** `updateAddress` as intended. */
  function UpdateSpec(rows: Table, id: nat, user: string, input: AddressInput): (Status, Table) {
    if Check(rows, id, user) != Done then (Check(rows, id, user), rows)
    else UpdateWith(rows, id, user, input, ClearsIntended(rows[id], input))
  }

  /** A missing address or another user's is refused with nothing changed.
      Otherwise the save happens exactly when the merged type is one of the
      four and the flag casts, and no address is added or removed. The
      updated address then holds the merge (the body's value when given, the
      old one otherwise); a rejected save leaves it as it was. Each other
      address of the user loses its flag exactly when the flag will be saved
      as true on an address that was not the default, and keeps that loss
      when the save is rejected; other users' addresses are untouched. */
  lemma UpdateMeaning(rows: Table, id: nat, user: string, input: AddressInput)
    ensures id !in rows ==> UpdateSpec(rows, id, user, input) == (NotFound, rows)
    ensures id in rows && rows[id].user != user ==> UpdateSpec(rows, id, user, input) == (NotAuthorized, rows)
    ensures var (status, after) := UpdateSpec(rows, id, user, input);
      Check(rows, id, user) == Done ==>
        (status == Done <==> Merge(rows[id], input, false).addressType in AddressTypes && MergedFlag(rows[id], input).Some?) &&
        (status == Done || status == Rejected) && after.Keys == rows.Keys &&
        (status == Done ==> after[id] == Merge(rows[id], input, MergedFlag(rows[id], input).value)) &&
        (status == Rejected ==> after[id] == rows[id]) &&
        forall other :: other in rows && other != id ==>
          after[other] == if ClearsIntended(rows[id], input) && rows[other].user == user then rows[other].(isDefault := false) else rows[other]
    ensures var (status, after) := UpdateSpec(rows, id, user, input);
      forall other :: other in rows && rows[other].user != user ==> other in after && after[other] == rows[other]
  {
  }

  /** The same for the update as written, whose clear is decided by
      `=== true`. */
  lemma UpdateAsWrittenMeaning(rows: Table, id: nat, user: string, input: AddressInput)
    ensures Check(rows, id, user) != Done ==> UpdateAsWritten(rows, id, user, input) == (Check(rows, id, user), rows)
    ensures var (status, after) := UpdateAsWritten(rows, id, user, input);
      Check(rows, id, user) == Done ==>
        (status == Done <==> Merge(rows[id], input, false).addressType in AddressTypes && MergedFlag(rows[id], input).Some?) &&
        (status == Done || status == Rejected) && after.Keys == rows.Keys &&
        (status == Done ==> after[id] == Merge(rows[id], input, MergedFlag(rows[id], input).value)) &&
        (status == Rejected ==> after[id] == rows[id]) &&
        forall other :: other in rows && other != id ==>
          after[other] == if ClearsAsWritten(rows[id], input) && rows[other].user == user then rows[other].(isDefault := false) else rows[other]
  {
  }

  /** The intended update keeps at most one default per user. */
  lemma UpdateKeepsOneDefault(rows: Table, id: nat, user: string, input: AddressInput)
    requires OneDefaultPerUser(rows)
    ensures OneDefaultPerUser(UpdateSpec(rows, id, user, input).1)
  {
    if Check(rows, id, user) == Done {
      ClearDefaultsMeaning(rows, user);
    }
  }

  /** Two addresses of `u`, the first the default. */
  const TwoAddresses: Table := map[
    0 := Address("u", "1 Main St", "", "Surat", "Gujarat", "395001", "India", "Home", true),
    1 := Address("u", "2 Ring Rd", "", "Surat", "Gujarat", "395002", "India", "Work", false)]

  /** A body that makes an address the default with the text `"true"`. */
  const TextTrue: AddressInput := AddressInput("", "", "", "", "", "", None, FlagText("true"))

  /** As written, making the second address the default with the text
      `"true"` leaves both addresses default; the intended update leaves
      only the second. */
  lemma UpdateAsWrittenAllowsTwoDefaults()
    ensures OneDefaultPerUser(TwoAddresses)
    ensures !OneDefaultPerUser(UpdateAsWritten(TwoAddresses, 1, "u", TextTrue).1)
    ensures Defaults(UpdateSpec(TwoAddresses, 1, "u", TextTrue).1, "u") == {1}
  {
    var after := UpdateAsWritten(TwoAddresses, 1, "u", TextTrue).1;
    assert after[0].isDefault && after[1].isDefault;
    var fixed := UpdateSpec(TwoAddresses, 1, "u", TextTrue).1;
    assert fixed.Keys == {0, 1};
    assert !fixed[0].isDefault && fixed[1].isDefault;
  }

  // --------------------------------------------------------------- delete

  /** `deleteAddress`. */
  function DeleteSpec(rows: Table, id: nat, user: string): (Status, Table) {
    if Check(rows, id, user) != Done then (Check(rows, id, user), rows)
    else (Done, rows - {id})
  }

  /** Deleting removes only the targeted address, and only when it exists
      and belongs to the user; it keeps at most one default per user. */
  lemma DeleteMeaning(rows: Table, id: nat, user: string)
    ensures var (status, after) := DeleteSpec(rows, id, user);
      (status == Done <==> id in rows && rows[id].user == user) &&
      (status == Done ==> after.Keys == rows.Keys - {id}) &&
      (status != Done ==> after == rows) &&
      (forall other :: other in after ==> other in rows && after[other] == rows[other])
    ensures OneDefaultPerUser(rows) ==> OneDefaultPerUser(DeleteSpec(rows, id, user).1)
  {
  }

  // ---------------------------------------------------------- set default

  /** `setDefaultAddress` as written: after clearing the user's flags the
      loaded address is set to true and saved, but a save writes only what
      differs from the loaded value, so an address that was already the
      default is not written and stays cleared. */
  function SetDefaultAsWritten(rows: Table, id: nat, user: string): (Status, Table) {
    if id !in rows || rows[id].user != user then (NotFound, rows)
    else
      var cleared := ClearDefaults(rows, user);
      if rows[id].isDefault then (Done, cleared)
      else (Done, cleared[id := rows[id].(isDefault := true)])
  }

  /** `setDefaultAddress` as intended: the address is written as the
      default whatever its flag was. */
  function SetDefaultSpec(rows: Table, id: nat, user: string): (Status, Table) {
    if id !in rows || rows[id].user != user then (NotFound, rows)
    else (Done, ClearDefaults(rows, user)[id := rows[id].(isDefault := true)])
  }

  /** As written, setting the current default as default again leaves the
      user with no default at all. */
  lemma SetDefaultAsWrittenClearsCurrent(rows: Table, id: nat, user: string)
    requires id in rows && rows[id].user == user && rows[id].isDefault
    ensures SetDefaultAsWritten(rows, id, user).0 == Done
    ensures Defaults(SetDefaultAsWritten(rows, id, user).1, user) == {}
  {
    ClearLeavesNoDefault(rows, user);
  }

  /** After a successful set, the address is its user's one and only
      default; a missing or foreign address changes nothing; other users'
      addresses are untouched, and at most one default per user is kept. */
  lemma SetDefaultMeaning(rows: Table, id: nat, user: string)
    ensures var (status, after) := SetDefaultSpec(rows, id, user);
      (status == Done <==> id in rows && rows[id].user == user) &&
      (status == Done ==> Defaults(after, user) == {id} && after.Keys == rows.Keys) &&
      (status != Done ==> status == NotFound && after == rows) &&
      (forall other :: other in rows && rows[other].user != user ==> after[other] == rows[other])
    ensures OneDefaultPerUser(rows) ==> OneDefaultPerUser(SetDefaultSpec(rows, id, user).1)
  {
    if id in rows && rows[id].user == user {
      ClearLeavesNoDefault(rows, user);
      var after := SetDefaultSpec(rows, id, user).1;
      assert id in Defaults(after, user);
    }
  }

  // ---------------------------------------------------------------- table

  /** The address collection. */
  class AddressTable {
    var rows: Table
    var nextId: nat

    ghost predicate Valid()
      reads this
    {
      (forall id :: id in rows ==> id < nextId) && OneDefaultPerUser(rows)
    }

    constructor ()
      ensures Valid() && rows == map[]
    {
      rows := map[];
      nextId := 0;
    }

    /** `Address.updateMany({ user }, { isDefault: false })`. */
    method UpdateMany(user: string)
      modifies this
      ensures rows == ClearDefaults(old(rows), user) && nextId == old(nextId)
    {
      rows := ClearDefaults(rows, user);
    }

    /** `addAddress` for the signed-in `user`; `id` is the new address's. */
    method AddAddress(user: string, input: AddressInput) returns (status: Status, id: nat)
      requires Valid()
      modifies this
      ensures Valid()
      ensures (status, rows) == AddSpec(old(rows), old(nextId), user, input)
      ensures status == Done ==> id == old(nextId)
    {
      id := nextId;
      if input.line1 == "" || input.city == "" || input.state == "" || input.postalCode == "" || input.country == "" {
        return BadRequest, id;
      }
      AddKeepsOneDefault(rows, nextId, user, input);
      if FlagTruthy(input.isDefault) {
        UpdateMany(user);
      }
      var addressType := if input.addressType.Some? then input.addressType.value else DefaultType;
      var flag := CastFlag(input.isDefault);
      if addressType !in AddressTypes || flag.None? {
        return Rejected, id;
      }
      rows := rows[nextId := Address(user, input.line1, input.line2, input.city, input.state,
                                     input.postalCode, input.country, addressType, flag.value)];
      nextId := nextId + 1;
      status := Done;
    }

    /** `updateAddress` (as intended) of address `id` by `user`. */
    method UpdateAddress(id: nat, user: string, input: AddressInput) returns (status: Status)
      requires Valid()
      modifies this
      ensures Valid()
      ensures (status, rows) == UpdateSpec(old(rows), id, user, input) && nextId == old(nextId)
    {
      UpdateKeepsOneDefault(rows, id, user, input);
      if id !in rows {
        return NotFound;
      }
      var current := rows[id];
      if current.user != user {
        return NotAuthorized;
      }
      if input.isDefault != FlagAbsent && CastFlag(input.isDefault) == Some(true) && !current.isDefault {
        UpdateMany(user);
      }
      var flag := MergedFlag(current, input);
      var merged := Merge(current, input, if flag.Some? then flag.value else false);
      if merged.addressType !in AddressTypes || flag.None? {
        return Rejected;
      }
      rows := rows[id := merged];
      status := Done;
    }

    /** `deleteAddress` of address `id` by `user`. */
    method DeleteAddress(id: nat, user: string) returns (status: Status)
      requires Valid()
      modifies this
      ensures Valid()
      ensures (status, rows) == DeleteSpec(old(rows), id, user) && nextId == old(nextId)
    {
      DeleteMeaning(rows, id, user);
      if id !in rows {
        return NotFound;
      }
      if rows[id].user != user {
        return NotAuthorized;
      }
      rows := rows - {id};
      status := Done;
    }

    /** `setDefaultAddress` (as intended) of address `id` by `user`. */
    method SetDefaultAddress(id: nat, user: string) returns (status: Status)
      requires Valid()
      modifies this
      ensures Valid()
      ensures (status, rows) == SetDefaultSpec(old(rows), id, user) && nextId == old(nextId)
    {
      SetDefaultMeaning(rows, id, user);
      if id !in rows || rows[id].user != user {
        return NotFound;
      }
      var address := rows[id];
      UpdateMany(user);
      rows := rows[id := address.(isDefault := true)];
      status := Done;
    }
  }
}
