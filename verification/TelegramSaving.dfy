/** The credential as the shell loads and saves it: the configuration names the variable, the
    private file holds it. What the file system answers is part of the `File` given. */
module TelegramSaving {
  import opened Text
  import opened TelegramCredentials
  import MinimalToml
  import Shell = ShellConfigurationFile

  /** `content` is what decodes as UTF-8; `priv`, that no group or other bit is set. */
  datatype File = Absent | Present(priv: bool, content: Option<string>)

  datatype State = Ready | NotConfigured | Missing | Unsafe | BadConfiguration | Unreadable(problem: Problem)

  datatype Reading = Reading(state: State, environment: Environment)

  datatype SaveFailure =
    | EmptyToken
    | InvalidTokenCharacters
    | TokenNotConfigured
    | Refused(state: State)
    | WriteFailed

  datatype Configured = Named(variable: string) | Unnamed | Failed

  /** What the configuration says of the variable; a missing one does not ask for Telegram. */
  function ConfiguredIn(config: Option<string>): Configured {
    if config.None? then Unnamed
    else match MinimalToml.Read(config.value, Shell.CHANNEL_SETTINGS, Shell.TOKEN_ENV)
      case Err(_) => Failed
      case Ok(None) => Unnamed
      case Ok(Some(name)) => if IsEnvironmentName(name) then Named(name) else Failed
  }

  function LoadFile(file: File, variable: string): Reading {
    match file
    case Absent => Reading(Missing, map[])
    case Present(priv, content) =>
      if !priv then Reading(Unsafe, map[])
      else if content.None? then Reading(Unreadable(NotUtf8), map[])
      else match EnvironmentIn(content.value)
        case Err(problem) => Reading(Unreadable(problem), map[])
        case Ok(environment) =>
          if variable in environment && !AllWhite(environment[variable]) then Reading(Ready, environment)
          else Reading(Missing, environment)
  }

  function Loaded(config: Option<string>, file: File): Reading {
    match ConfiguredIn(config)
    case Unnamed => Reading(NotConfigured, map[])
    case Failed => Reading(BadConfiguration, map[])
    case Named(variable) => LoadFile(file, variable)
  }

  predicate IsOneLineToken(token: string) {
    '\n' !in token && '\r' !in token && '\0' !in token
  }

  function Content(file: File): Option<string> {
    if file.Present? then file.content else None
  }

  /** Whether a save of the token would be refused by nothing but the file system. */
  predicate Savable(config: Option<string>, file: File, token: string) {
    !AllWhite(token) && IsOneLineToken(token) && Loaded(config, file).state in {Ready, Missing}
  }

  /** The file with the one assignment rewritten, born private. */
  function Rewriting(config: Option<string>, file: File, token: string): File
    requires ConfiguredIn(config).Named?
  {
    Present(true, Some(Rewritten(ConfiguredIn(config).variable, token, Content(file))))
  }

  function Updating(config: Option<string>, file: File, token: string): Reading
    requires ConfiguredIn(config).Named?
  {
    Reading(Ready, Loaded(config, file).environment[ConfiguredIn(config).variable := token])
  }

  class Credentials {
    var config: Option<string>
    var file: File

    constructor (config: Option<string>, file: File)
      ensures this.config == config && this.file == file
    {
      this.config, this.file := config, file;
    }

    method Load() returns (reading: Reading)
      ensures reading == Loaded(config, file)
    {
      var configured := ConfiguredIn(config);
      if configured.Unnamed? {
        return Reading(NotConfigured, map[]);
      }
      if configured.Failed? {
        return Reading(BadConfiguration, map[]);
      }
      if file.Absent? {
        return Reading(Missing, map[]);
      }
      if !file.priv {
        return Reading(Unsafe, map[]);
      }
      if file.content.None? {
        return Reading(Unreadable(NotUtf8), map[]);
      }
      var environment := ReadEnvironment(file.content.value);
      if environment.Err? {
        return Reading(Unreadable(environment.error), map[]);
      }
      var variable := configured.variable;
      if variable in environment.value && !AllWhite(environment.value[variable]) {
        return Reading(Ready, environment.value);
      }
      return Reading(Missing, environment.value);
    }

    /** A save works exactly for a token of one line that is not blank, where the variable is
        named, what there is of the file could be read, and the new file could be `written`.
        Then the file is private, holds the old text with that one assignment rewritten, and
        loads as exactly what is returned: ready, with the old variables and this one. A save
        that fails changes nothing. */
    method Save(token: string, written: bool) returns (r: Result<Reading, SaveFailure>)
      modifies this`file
      ensures r.Ok? <==> written && Savable(config, old(file), token)
      ensures AllWhite(token) ==> r == Err(EmptyToken)
      ensures !AllWhite(token) && !IsOneLineToken(token) ==> r == Err(InvalidTokenCharacters)
      ensures !AllWhite(token) && IsOneLineToken(token) && !Savable(config, old(file), token) ==>
                r == Err(if ConfiguredIn(config).Unnamed? then TokenNotConfigured
                         else Refused(Loaded(config, old(file)).state))
      ensures Savable(config, old(file), token) && !written ==> r == Err(WriteFailed)
      ensures r.Err? ==> file == old(file)
      ensures r.Ok? ==> file == Rewriting(config, old(file), token)
      ensures r.Ok? ==> Loaded(config, file) == r.value == Updating(config, old(file), token)
    {
      if AllWhite(token) {
        return Err(EmptyToken);
      }
      if !IsOneLineToken(token) {
        return Err(InvalidTokenCharacters);
      }
      var configured := ConfiguredIn(config);
      match configured {
        case Named(_) =>
        case Unnamed => return Err(TokenNotConfigured);
        case Failed => return Err(Refused(BadConfiguration));
      }
      var variable := configured.variable;
      var current := Load();
      if current.state.NotConfigured? {
        return Err(TokenNotConfigured);
      }
      if !(current.state.Ready? || current.state.Missing?) {
        return Err(Refused(current.state));
      }
      var environment := current.environment[variable := token];
      var original := if file.Present? then file.content else None;
      var rendered := Replacing(variable, token, original);
      if !written {
        return Err(WriteFailed);
      }
      SavedLoads(config, file, token);
      file := Present(true, Some(rendered));
      return Ok(Reading(Ready, environment));
    }
  }

  /** What was just saved is what is loaded next. */
  lemma SavedLoads(config: Option<string>, file: File, token: string)
    requires Savable(config, file, token)
    ensures ConfiguredIn(config).Named?
    ensures Loaded(config, Rewriting(config, file, token)) == Updating(config, file, token)
  {
    var variable := ConfiguredIn(config).variable;
    RewritingReadsBack(Content(file), variable, token);
    if file.Absent? {
      assert EnvironmentIn("") == Ok(map[]) by {
        assert Split("") == [""];
        EmptyIsSkipped();
        assert [Skipped][..0] == [];
      }
    }
  }
}
