/**
  * The part of the browser's `URLSearchParams` the pages use to build their query
  * strings: `set`, which gives a key its one value, and `get`. The pairs are kept as a
  * map from key to value; their order, serialisation and percent-encoding are not
  * modelled.
  */
module UrlParams {
  import opened Wrappers

  type Params = map<string, string>

  /** `get`: the key's value, if it was set. */
  function Get(p: Params, k: string): Option<string> {
    if k in p then Some(p[k]) else None
  }

  /** `if (x) params.set(key, x)`: an empty string is left out. */
  function IfSet(x: string): Option<string> {
    if x != "" then Some(x) else None
  }

  /** A `URLSearchParams` object, changed in place by `set`. */
  class SearchParams {
    var values: Params

    constructor ()
      ensures values == map[]
    {
      values := map[];
    }

    /** `set(k, v)`: afterwards `k` has the value `v` and every other key keeps its own. */
    method Set(k: string, v: string)
      modifies this
      ensures values == old(values)[k := v]
      ensures Get(values, k) == Some(v)
      ensures forall k' :: k' != k ==> Get(values, k') == Get(old(values), k')
    {
      values := values[k := v];
    }
  }
}
