/** Option, and the dictionary idioms of the Python receiver (`d.get`, truthiness, `a or b`). */
module Wrappers {

  datatype Option<+T> = None | Some(value: T)

  /** A label or annotation dictionary as Grafana sends it: string keys to string values. */
  type Labels = map<string, string>

  /** `d.get(k, default)`: the default applies only when the key is absent, never to a present "". */
  function Get(d: Labels, k: string, default: string): string
  {
    if k in d then d[k] else default
  }

  /** `d.get(k)` without a default. */
  function Lookup(d: Labels, k: string): Option<string>
  {
    if k in d then Some(d[k]) else None
  }

  /** Python truthiness of a string that may be None. */
  predicate Truthy(s: Option<string>)
  {
    s.Some? && s.value != ""
  }

  /** `a or b` for a string `a` that may be None. */
  function OrElse(a: Option<string>, b: string): string
  {
    if Truthy(a) then a.value else b
  }
}
