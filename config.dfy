/** The launch options collected from the command line (ConsoleSystemTray/Options.cs). */
module Config {
  import opened Wrappers

  /** One UTF-16 code unit: .NET counts, indexes and cuts strings in these. */
  newtype CodeUnit = x: int | 0 <= x < 0x1_0000

  /** The text of a .NET string, as its sequence of UTF-16 code units. */
  type DotNetString = seq<CodeUnit>

  /** A .NET string reference: None stands for null. */
  type NullableString = Option<DotNetString>

  /** string.IsNullOrEmpty */
  predicate IsNullOrEmpty(s: NullableString) {
    s.None? || s.value == []
  }

  /** The property bag handed from Main to Run; it has no behaviour of its own. */
  datatype Options = Options(
    path: NullableString,
    arguments: NullableString,
    baseDirectory: NullableString,
    icon: NullableString,
    tip: NullableString,
    isPreventSleep: bool,
    isStartMinimized: bool)
}
