/** The input check shared by profile creation and update. */
module ProfileServices {
  import opened Wrappers

  /** A profile request body. Every field may be missing. */
  datatype ProfileInput = ProfileInput(
    name: Option<string>,
    description: Option<string>,
    profileType: Option<string>,
    basedOnId: Option<string>,
    adjustmentMode: Option<string>,
    adjustmentIncrement: Option<string>,
    status: Option<string>)

  /** `validateCreatePriceProfile`. The allowed modes and increments are
      parameters: the constants module holding them is not part of this
      model. */
  function ValidateCreatePriceProfile(data: Option<ProfileInput>, modes: seq<string>, increments: seq<string>): (ok: bool)
    ensures ok <==>
      && data.Some?
      && Truthy(data.value.name)
      && Truthy(data.value.profileType)
      && Truthy(data.value.adjustmentMode)
      && Truthy(data.value.adjustmentIncrement)
      && data.value.adjustmentMode.value in modes
      && data.value.adjustmentIncrement.value in increments
  {
    if data.None? then false
    else if !Truthy(data.value.profileType) || !Truthy(data.value.adjustmentMode)
         || !Truthy(data.value.adjustmentIncrement) || !Truthy(data.value.name) then false
    else if data.value.adjustmentMode.value !in modes
         || data.value.adjustmentIncrement.value !in increments then false
    else true
  }

  /** The description, the reference profile and the status never decide
      whether an input is accepted. */
  lemma ValidationIgnoresOptionalFields(d: ProfileInput, modes: seq<string>, increments: seq<string>,
                                        description: Option<string>, basedOnId: Option<string>, status: Option<string>)
    ensures ValidateCreatePriceProfile(Some(d), modes, increments)
         == ValidateCreatePriceProfile(Some(d.(description := description, basedOnId := basedOnId, status := status)), modes, increments)
  {
  }
}
