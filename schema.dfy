/** The column names the appraisal script relies on, spelled exactly as in the uploaded sheet. */
module Schema {
  import opened Frame

  const Bedrooms: string := "Total Bedrooms"
  const SquareFeet: string := "Total SqFt."
  const Bathrooms: string := "Total Bathrooms"
  const GarageStalls: string := "Garage Stall"
  const LotAcres: string := "Lot Acres"
  const SoldPrice: string := "Sold Price"

  /** The predictor columns, in the order the models see them and the adjustment table lists them. */
  const Features: seq<string> := [Bedrooms, SquareFeet, Bathrooms, GarageStalls, LotAcres]

  /** The columns coerced to numbers, in the order the script coerces them. */
  const Required: seq<string> := Features + [SoldPrice]

  lemma NamesDistinct()
    ensures |Features| == 5 && |Required| == 6
    ensures Distinct(Features) && Distinct(Required)
    ensures SoldPrice in Required && SoldPrice !in Features
    ensures forall k :: 0 <= k < |Features| ==> Features[k] in Required
  {
  }
}
