/** The dashboard's shared state: the loaded claims, the predictions, the
  selected date, the dates on offer and one comparison frame per model. */
module DashboardContainer {
  import opened Wrappers
  import opened Frames

  datatype Container = Container(
    claims: Option<Frame>,
    predictions: Option<Frame>,
    selectedDate: Option<string>,
    availableDates: seq<string>,
    modelData: map<string, Frame>)

  /** A container before anything is loaded. */
  const Initial := Container(None, None, None, [], map[])

  /** `get_model_data`: the frame stored for the model, if any. */
  function GetModelData(c: Container, name: string): (r: Option<Frame>)
    ensures r.Some? <==> name in c.modelData
    ensures r.Some? ==> r.value == c.modelData[name]
  {
    if name in c.modelData then Some(c.modelData[name]) else None
  }

  /** `set_insurance_claim_df`: only the claims change. */
  function SetClaims(c: Container, df: Frame): (r: Container)
    ensures r.claims == Some(df)
    ensures r.predictions == c.predictions && r.selectedDate == c.selectedDate
    ensures r.availableDates == c.availableDates
    ensures forall m :: GetModelData(r, m) == GetModelData(c, m)
  {
    c.(claims := Some(df))
  }

  /** `set_prediction_df`: only the predictions change. */
  function SetPredictions(c: Container, df: Frame): (r: Container)
    ensures r.predictions == Some(df)
    ensures r.claims == c.claims && r.selectedDate == c.selectedDate
    ensures r.availableDates == c.availableDates
    ensures forall m :: GetModelData(r, m) == GetModelData(c, m)
  {
    c.(predictions := Some(df))
  }

  /** `add_model_data`: the model's entry is replaced and no other entry changes. */
  function AddModelData(c: Container, name: string, df: Frame): (r: Container)
    ensures GetModelData(r, name) == Some(df)
    ensures forall m | m != name :: GetModelData(r, m) == GetModelData(c, m)
    ensures r.claims == c.claims && r.predictions == c.predictions
    ensures r.selectedDate == c.selectedDate && r.availableDates == c.availableDates
  {
    c.(modelData := c.modelData[name := df])
  }

  /** `clear_model_data`: every model lookup then finds nothing. */
  function ClearModelData(c: Container): (r: Container)
    ensures forall m :: GetModelData(r, m) == None
    ensures r.claims == c.claims && r.predictions == c.predictions
    ensures r.selectedDate == c.selectedDate && r.availableDates == c.availableDates
  {
    c.(modelData := map[])
  }

  /** Adding the same model twice keeps only the later frame. */
  lemma AddTwice(c: Container, name: string, a: Frame, b: Frame)
    ensures AddModelData(AddModelData(c, name, a), name, b) == AddModelData(c, name, b)
  {
  }

  /** Adding distinct models commutes. */
  lemma AddCommutes(c: Container, n1: string, a: Frame, n2: string, b: Frame)
    requires n1 != n2
    ensures AddModelData(AddModelData(c, n1, a), n2, b) == AddModelData(AddModelData(c, n2, b), n1, a)
  {
  }
}
