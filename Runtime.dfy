/**
 * What the two functions see of their host: the process environment,
 * read as a map from variable name to value, and the outcome of each
 * awaited call into the cloud backend.
 */
module Runtime {
  import opened Wrappers

  /** The process environment; a name that is not a key is unset. */
  type Environment = map<string, string>

  /** `Environment.GetEnvironmentVariable(name)`: the value, or null when unset. */
  function GetVariable(env: Environment, name: string): (v: Option<string>)
    ensures v.Some? <==> name in env
    ensures v.Some? ==> v.value == env[name]
  {
    if name in env then Some(env[name]) else None
  }

  /** `string.IsNullOrEmpty`. */
  predicate IsNullOrEmpty(v: Option<string>) {
    v.None? || v.value == ""
  }

  /** String interpolation of a possibly null string: null prints as nothing. */
  function Interpolate(v: Option<string>): string {
    v.GetOr("")
  }

  /**
   * How one awaited backend call ended: it completed, or it threw an
   * exception carrying `message`.
   */
  datatype CallOutcome = Completed | Threw(message: string)
}
