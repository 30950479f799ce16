/** The account endpoint's query variable (`includes/query-mods.php`). */
module QueryMods {
  import opened Helpers

  /** `add_account_endpoint_vars($vars)`: `FRONT_VAR` is appended unless it is already there. */
  function AddAccountEndpointVars(vars: seq<string>): (r: seq<string>)
    ensures FrontVar in r
    ensures FrontVar in vars ==> r == vars
    ensures FrontVar !in vars ==> r == vars + [FrontVar]
  {
    if FrontVar in vars then vars else vars + [FrontVar]
  }

  /** Registering twice is registering once, and the existing variables keep their order in front. */
  lemma AddAccountEndpointVarsIdempotent(vars: seq<string>)
    ensures AddAccountEndpointVars(AddAccountEndpointVars(vars)) == AddAccountEndpointVars(vars)
    ensures AddAccountEndpointVars(vars)[..|vars|] == vars
    ensures multiset(AddAccountEndpointVars(vars))[FrontVar] == if FrontVar in vars then multiset(vars)[FrontVar] else 1
  {
  }
}
