/** Values shared by the converters and the HAProxy model. */
module Model {

  datatype Option<+T> = None | Some(value: T)

  /** Path match types: `str`, `dir`, `beg` and `reg` in HAProxy. */
  datatype MatchType = Exact | Prefix | Begin | Regex

  datatype HTTPMatch = HTTPMatch(name: string, value: string, regex: bool)

  /** Identifies a path of a host. */
  datatype PathLink = PathLink(hostname: string, path: string, match_: MatchType, headers: seq<HTTPMatch>)
}
