/** The model-selection table at the head of app.py's `build_map`: which
    property fields and which layer name a mode reads. */
module Modes {

  /** The three model-specific property names and the layer's display name. */
  datatype Fields = Fields(bucket: string, probability: string, rate: string, layerName: string)

  /** The two choices the sidebar offers (the keys of `FILES`). */
  const PoissonMode: string := "Poisson Regression"
  const GbtMode: string := "Gradient Boosted Trees (GBT)"

  const PoissonFields: Fields := Fields("risk_bucket", "p_ge1", "lambda_hat", "Risk (Poisson)")
  const GbtFields: Fields := Fields("risk_bucket_gbt", "p_ge1_gbt", "lambda_hat_gbt", "Risk (GBT)")

  /** Only the exact string "Poisson Regression" selects the Poisson fields;
      every other mode string, not just the GBT label, falls through to the
      GBT fields. The three field names are always distinct. */
  function Resolve(mode: string): (f: Fields)
    ensures f == PoissonFields <==> mode == PoissonMode
    ensures f == GbtFields <==> mode != PoissonMode
    ensures f.bucket != f.probability && f.bucket != f.rate && f.probability != f.rate
  {
    if mode == PoissonMode then PoissonFields else GbtFields
  }
}
