/** Variable-name policy: the sets of `varnames.rs` and the filter of `filter.rs`. */
module VarNames {
  type Env = map<string, string>

  const SESSION_SPECIFIC: set<string> :=
    {"XDG_SEAT", "XDG_SEAT_PATH", "XDG_SESSION_ID", "XDG_SESSION_PATH", "XDG_VTNR"}

  const ALWAYS_EXPORT: set<string> :=
    {"PATH", "XDG_CURRENT_DESKTOP", "XDG_MENU_PREFIX", "XDG_SESSION_DESKTOP", "XDG_SESSION_CLASS",
     "XDG_SESSION_TYPE"}

  const NEVER_EXPORT: set<string> :=
    {"PWD", "LS_COLORS", "INVOCATION_ID", "SHLVL", "SHELL", "TERM", "COLORTERM", "TERM_SESSION_TYPE",
     "NOTIFY_SOCKET"} + SESSION_SPECIFIC

  const ALWAYS_UNSET: set<string> := {"DISPLAY", "WAYLAND_DISPLAY"} + SESSION_SPECIFIC

  const ALWAYS_CLEANUP: set<string> :=
    {"DISPLAY", "LANG", "PATH", "WAYLAND_DISPLAY", "XCURSOR_SIZE", "XCURSOR_THEME", "XDG_CURRENT_DESKTOP",
     "XDG_MENU_PREFIX", "XDG_SESSION_DESKTOP", "XDG_SESSION_CLASS", "XDG_SESSION_TYPE", "NOTIFY_SOCKET"}
    + SESSION_SPECIFIC

  const NEVER_CLEANUP: set<string> := {"SSH_AGENT_LAUNCHER", "SSH_AUTH_SOCK", "SSH_AGENT_PID"}

  const DROP_SH_VARS: set<string> := {"_", "SHELL", "PWD", "OLDWD"}

  predicate IsAsciiAlphabetic(c: char) {
    'a' <= c <= 'z' || 'A' <= c <= 'Z'
  }

  predicate IsAsciiAlphanumeric(c: char) {
    IsAsciiAlphabetic(c) || '0' <= c <= '9'
  }

  predicate IsWordChar(c: char) {
    IsAsciiAlphanumeric(c) || c == '_'
  }

  /** A letter followed by word characters, or `_` followed by at least one. */
  predicate IsValidName(name: string) {
    && |name| > 0
    && (IsAsciiAlphabetic(name[0]) || (name[0] == '_' && |name| > 1))
    && forall i | 1 <= i < |name| :: IsWordChar(name[i])
  }

  predicate KeepName(name: string) {
    name !in DROP_SH_VARS && IsValidName(name)
  }

  function FilterEnv(env: Env): Env {
    map k | k in env && KeepName(k) :: env[k]
  }

  function FilterNames(names: set<string>): set<string> {
    set k | k in names && KeepName(k)
  }

  /** A name that survives the filter contains no separator of any of the file formats. */
  lemma KeptNameChars(name: string)
    requires KeepName(name)
    ensures name != ""
    ensures forall i | 0 <= i < |name| :: IsWordChar(name[i])
  {
  }
}
