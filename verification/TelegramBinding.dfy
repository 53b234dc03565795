/** Binding and unbinding as a whole: the configuration and the credential file change together,
    or not at all. */
module TelegramBinding {
  import opened Text
  import opened TelegramCredentials
  import opened TelegramSaving
  import opened TomlTidy
  import MinimalToml
  import Shell = ShellConfigurationFile

  /** How the steps that touch the world turn out: the candidate read back, the configuration
      written, the credential file written or removed, the original configuration restored. */
  datatype World = World(readable: bool, written: bool, followed: bool, restored: bool)

  /** The configuration with the binding in it, if its token variable can be read and the chat
      was confirmed. */
  function BindingText(config: string, confirmed: Option<string>, botName: string): Option<string> {
    if confirmed.None? then None
    else match MinimalToml.Read(config, Shell.CHANNEL_SETTINGS, Shell.TOKEN_ENV)
      case Err(_) => None
      case Ok(Some(variable)) => Some(Shell.Bound(config, variable, confirmed.value, botName))
      case Ok(None) => Some(Shell.Bound(config, Shell.DEFAULT_TOKEN_VARIABLE, confirmed.value, botName))
  }

  class Installation {
    var config: string
    var file: File

    constructor (config: string, file: File)
      ensures this.config == config && this.file == file
    {
      this.config, this.file := config, file;
    }

    /** `bindTelegram`: it succeeds exactly when there is a text to write, the engine reads it,
        both writes work and the token can be saved under the variable that text names. Then
        both files are new and the credentials load as ready. Otherwise both are as before,
        unless restoring the configuration fails too - and never is a token saved that the
        configuration does not name. */
    method Bind(confirmed: Option<string>, botName: string, token: string, world: World) returns (ok: bool)
      modifies this
      ensures var text := BindingText(old(config), confirmed, botName);
              && (ok <==> text.Some? && world.readable && world.written && world.followed
                          && Savable(text, old(file), token))
              && (ok ==> Some(config) == text && file == Rewriting(text, old(file), token)
                         && Loaded(Some(config), file) == Updating(text, old(file), token))
              && (!ok ==> file == old(file) && (config == old(config) || (Some(config) == text && !world.restored)))
    {
      var edited := Shell.BindTelegram(confirmed, botName, config);
      if edited.Err? || !world.readable || !world.written {
        return false;
      }
      var original := config;
      config := edited.value;
      var credentials := new Credentials(Some(edited.value), file);
      var saved := credentials.Save(token, world.followed);
      if saved.Err? {
        if world.restored {
          config := original;
        }
        return false;
      }
      file := credentials.file;
      return true;
    }

    /** `replace`, and then the credential file removed if there is one. */
    method ReplaceAndRemove(text: string, world: World) returns (ok: bool)
      modifies this
      ensures ok <==> world.readable && world.written && (old(file).Absent? || world.followed)
      ensures ok ==> config == text && file == Absent
      ensures !ok ==> file == old(file) && (config == old(config) || (config == text && !world.restored))
    {
      if !world.readable || !world.written {
        return false;
      }
      var original := config;
      config := text;
      if file.Present? {
        if !world.followed {
          if world.restored {
            config := original;
          }
          return false;
        }
        file := Absent;
      }
      return true;
    }

    /** `unbindTelegram`: both files are as before, or the channel is gone from the configuration
        and the credential file with it. */
    method Unbind(world: World) returns (ok: bool)
      modifies this
      ensures ok <==> world.readable && world.written && (old(file).Absent? || world.followed)
      ensures var text := Shell.Unbound(old(config));
              && (ok ==> config == text && file == Absent)
              && (!ok ==> file == old(file) && (config == old(config) || (config == text && !world.restored)))
    {
      var text := Shell.UnbindTelegram(config);
      ok := ReplaceAndRemove(text, world);
    }
  }

  // ----- what is loaded afterwards -----

  lemma TokenEnvIsBound(variable: string, chatId: string, botName: string)
    ensures Shell.Change(Shell.CHANNEL_SETTINGS, Shell.TOKEN_ENV, variable) in Shell.Binding(variable, chatId, botName)
  {
  }

  /** The variable a binding writes: the one that was named before, or the default. */
  function BoundVariable(config: string): string {
    match MinimalToml.Read(config, Shell.CHANNEL_SETTINGS, Shell.TOKEN_ENV)
    case Ok(Some(variable)) => variable
    case _ => Shell.DEFAULT_TOKEN_VARIABLE
  }

  /** In a tidy configuration a binding names, to the credential reader, the variable that was
      named before or the default one, so a token saved with it is the one loaded. */
  lemma BoundThenSaved(config: string, confirmed: Option<string>, botName: string, file: File, token: string)
    requires Tidy(config, Shell.EDITED) && BindingText(config, confirmed, botName).Some?
    requires IsEnvironmentName(BoundVariable(config))
    ensures var text := BindingText(config, confirmed, botName); var variable := BoundVariable(config);
            && ConfiguredIn(text) == Named(variable)
            && (Savable(text, file, token) ==>
                  var after := Loaded(text, Rewriting(text, file, token));
                  after.state == Ready && variable in after.environment && after.environment[variable] == token)
  {
    var text, variable := BindingText(config, confirmed, botName), BoundVariable(config);
    assert text == Some(Shell.Bound(config, variable, confirmed.value, botName));
    Shell.BindingReadsBack(config, variable, confirmed.value, botName);
    TokenEnvIsBound(variable, confirmed.value, botName);
    assert MinimalToml.Read(text.value, Shell.CHANNEL_SETTINGS, Shell.TOKEN_ENV) == Ok(Some(variable));
    if Savable(text, file, token) {
      SavedLoads(text, file, token);
    }
  }

  /** After an unbinding of a tidy configuration the engine is started without Telegram. */
  lemma UnboundLoadsNothing(config: string, file: File)
    requires Tidy(config, Shell.EDITED)
    ensures Loaded(Some(Shell.Unbound(config)), file) == Reading(NotConfigured, map[])
  {
    Shell.UnbindingReads(config, Shell.CHANNEL_SETTINGS, Shell.TOKEN_ENV);
  }
}
