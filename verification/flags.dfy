/** The value a store holds for one flag key: either a plain boolean or a version string
    that gates the flag on the app's version. The two kinds are the only ones there are. */
module Flags {
  import opened Wrappers

  datatype FlagValue = BoolFlag(b: bool) | VersionFlag(s: string)

  /** The boolean view: present exactly for a boolean flag, and it is that flag's value. */
  function AsBool(v: FlagValue): (r: Option<bool>)
    ensures r.Some? <==> v.BoolFlag?
    ensures r.Some? ==> BoolFlag(r.value) == v
  {
    match v
    case BoolFlag(b) => Some(b)
    case VersionFlag(_) => None
  }

  /** The string view: present exactly for a version flag, and it is that flag's string. */
  function AsString(v: FlagValue): (r: Option<string>)
    ensures r.Some? <==> v.VersionFlag?
    ensures r.Some? ==> VersionFlag(r.value) == v
  {
    match v
    case BoolFlag(_) => None
    case VersionFlag(s) => Some(s)
  }

  /** Every flag value answers exactly one of the two views. */
  lemma ExactlyOneView(v: FlagValue)
    ensures AsBool(v).Some? != AsString(v).Some?
  {
  }

  /** The two views together determine the value. */
  lemma ViewsDetermineValue(v: FlagValue, w: FlagValue)
    requires AsBool(v) == AsBool(w) && AsString(v) == AsString(w)
    ensures v == w
  {
  }
}
