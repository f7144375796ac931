/** The process start request built from the options (ConsoleSystemTray/Program.cs, Run). */
module StartRequest {
  import opened Wrappers
  import opened Config

  /**
   * The fields of the start request that Run touches. None in arguments or
   * workingDirectory means the field was left at its default.
   */
  datatype StartInfo = StartInfo(
    fileName: NullableString,
    arguments: Option<DotNetString>,
    workingDirectory: Option<DotNetString>,
    errorDialog: bool)

  /** The value a request field reads as: a field left at its default reads as the empty string. */
  function Effective(field: Option<DotNetString>): DotNetString {
    if field.Some? then field.value else []
  }

  /** Builds the start request field by field, setting the optional fields only when non-empty. */
  method NewStartInfo(options: Options) returns (info: StartInfo)
    ensures info.fileName == options.path
    ensures info.errorDialog
    ensures info.arguments.Some? <==> !IsNullOrEmpty(options.arguments)
    ensures info.arguments.Some? ==> info.arguments == options.arguments && info.arguments.value != []
    ensures info.workingDirectory.Some? <==> !IsNullOrEmpty(options.baseDirectory)
    ensures info.workingDirectory.Some? ==> info.workingDirectory == options.baseDirectory && info.workingDirectory.value != []
  {
    info := StartInfo(options.path, None, None, true);
    if !IsNullOrEmpty(options.arguments) {
      info := info.(arguments := options.arguments);
    }
    if !IsNullOrEmpty(options.baseDirectory) {
      info := info.(workingDirectory := options.baseDirectory);
    }
  }

  /**
   * Skipping an empty option loses nothing: the request reads the option's
   * text, with null read as empty, exactly as an unconditional copy would.
   */
  method EffectiveFields(options: Options) returns (arguments: DotNetString, workingDirectory: DotNetString)
    ensures arguments == Effective(options.arguments)
    ensures workingDirectory == Effective(options.baseDirectory)
  {
    var info := NewStartInfo(options);
    arguments := Effective(info.arguments);
    workingDirectory := Effective(info.workingDirectory);
  }
}
