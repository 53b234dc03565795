/** The user's configuration, edited in place: each save is a run of edits, and the file is
    replaced by the result or left as it was. */
module ShellConfigurationFile {
  import opened Text
  import opened TomlString
  import opened TomlScan
  import opened TomlLines
  import opened MinimalToml
  import opened TomlSetting
  import opened TomlTidy
  import opened TomlRemoving

  const TELEGRAM_ADAPTER := "gpt_voicecoding.adapters.companion_channel.telegram:telegram_channel"
  const NULL_ADAPTER := "gpt_voicecoding.adapters.companion_channel:null_channel"
  const DEFAULT_TOKEN_VARIABLE := "GPTVOICECODING_TELEGRAM_TOKEN"

  const ADAPTERS := "adapters"
  const CHANNEL_SETTINGS := "adapters.settings.companion_channel"
  const SHELL_TELEGRAM := "shell.telegram"
  const DELEGATE := "delegate"

  const CHANNEL := "companion_channel"
  const TOKEN_ENV := "token_env"
  const CHAT_ID := "chat_id"
  const BOT_NAME := "bot_name"
  const MODEL := "model"
  const EFFORT := "effort"

  /** The keys these edits write. */
  const EDITED: set<string> := {CHANNEL, TOKEN_ENV, CHAT_ID, BOT_NAME, MODEL, EFFORT}

  // ----- the edits -----

  datatype Change = Change(table: string, key: string, value: string)

  function SetAll(text: string, changes: seq<Change>): string {
    if changes == [] then text
    else
      var last := changes[|changes| - 1];
      SetText(SetAll(text, changes[..|changes| - 1]), last.table, last.key, Quoted(last.value))
  }

  function Binding(variable: string, chatId: string, botName: string): seq<Change> {
    [Change(ADAPTERS, CHANNEL, TELEGRAM_ADAPTER),
     Change(CHANNEL_SETTINGS, TOKEN_ENV, variable),
     Change(CHANNEL_SETTINGS, CHAT_ID, chatId),
     Change(SHELL_TELEGRAM, BOT_NAME, botName)]
  }

  /** The four settings of a binding, one after the other. */
  function Bound(text: string, variable: string, chatId: string, botName: string): string {
    SetAll(text, Binding(variable, chatId, botName))
  }

  function Unbound(text: string): string {
    var t1 := WithoutTable(text, CHANNEL_SETTINGS);
    var t2 := WithoutTable(t1, SHELL_TELEGRAM);
    SetText(t2, ADAPTERS, CHANNEL, Quoted(NULL_ADAPTER))
  }

  function AgentModel(text: string, model: string, effort: Option<string>): string {
    var t1 := SetText(text, DELEGATE, MODEL, Quoted(model));
    match effort
    case Some(e) => SetText(t1, DELEGATE, EFFORT, Quoted(e))
    case None => WithoutKey(t1, DELEGATE, EFFORT)
  }

  /** The text `bindTelegram` writes. An existing token variable wins over the default. */
  method BindTelegram(confirmed: Option<string>, botName: string, text: string) returns (r: Result<string, Failure>)
    ensures confirmed.None? ==> r == Err(NotConfirmed)
    ensures confirmed.Some? ==>
              match Read(text, CHANNEL_SETTINGS, TOKEN_ENV)
              case Err(e) => r == Err(e)
              case Ok(Some(variable)) => r == Ok(Bound(text, variable, confirmed.value, botName))
              case Ok(None) => r == Ok(Bound(text, DEFAULT_TOKEN_VARIABLE, confirmed.value, botName))
  {
    if confirmed.None? {
      return Err(NotConfirmed);
    }
    var named := ReadString(TOKEN_ENV, CHANNEL_SETTINGS, text);
    if named.Err? {
      return Err(named.error);
    }
    var variable := match named.value case Some(v) => v case None => DEFAULT_TOKEN_VARIABLE;
    var edited := ApplyAll(text, Binding(variable, confirmed.value, botName));
    return Ok(edited);
  }

  /** The loop over a binding's settings. */
  method ApplyAll(text: string, changes: seq<Change>) returns (edited: string)
    ensures edited == SetAll(text, changes)
  {
    edited := text;
    for i := 0 to |changes|
      invariant edited == SetAll(text, changes[..i])
    {
      var change := changes[i];
      var next := Set(JsonString(change.value), change.key, change.table, edited);
      assert changes[..i + 1][..i] == changes[..i];
      edited := next.value;
    }
    assert changes[..|changes|] == changes;
  }

  method UnbindTelegram(text: string) returns (r: string)
    ensures r == Unbound(text)
  {
    var without := RemoveTable(CHANNEL_SETTINGS, text);
    without := RemoveTable(SHELL_TELEGRAM, without);
    var edited := Set(JsonString(NULL_ADAPTER), CHANNEL, ADAPTERS, without);
    r := edited.value;
  }

  method SaveAgentModel(model: string, effort: Option<string>, text: string) returns (r: string)
    ensures r == AgentModel(text, model, effort)
  {
    var edited := Set(JsonString(model), MODEL, DELEGATE, text);
    r := edited.value;
    if effort.Some? {
      edited := Set(JsonString(effort.value), EFFORT, DELEGATE, r);
      r := edited.value;
    } else {
      r := RemoveKey(EFFORT, DELEGATE, r);
    }
  }

  // ----- the names are fit for editing -----

  predicate IsWordChar(c: char) {
    'a' <= c <= 'z' || c == '_' || c == '.'
  }

  predicate IsWord(s: string) {
    s != "" && forall i :: 0 <= i < |s| ==> IsWordChar(s[i])
  }

  lemma WordIsFit(s: string)
    requires IsWord(s)
    ensures LegalKey(s) && LegalTable(s) && IsPlain(s) && s != ""
  {
  }

  lemma KeysAreWords()
    ensures IsWord(CHANNEL) && IsWord(TOKEN_ENV) && IsWord(CHAT_ID) && IsWord(BOT_NAME)
    ensures IsWord(MODEL) && IsWord(EFFORT)
  {
  }

  lemma TablesAreWords()
    ensures IsWord(ADAPTERS) && IsWord(CHANNEL_SETTINGS) && IsWord(SHELL_TELEGRAM) && IsWord(DELEGATE)
  {
  }

  lemma NamesAreFit()
    ensures BareKeys(EDITED)
    ensures forall table :: table in {ADAPTERS, CHANNEL_SETTINGS, SHELL_TELEGRAM, DELEGATE} ==>
              LegalTable(table) && IsPlain(table) && table != ""
  {
    KeysAreWords();
    TablesAreWords();
    forall key | key in EDITED ensures LegalKey(key) && IsPlain(key) {
      WordIsFit(key);
    }
    forall table | table in {ADAPTERS, CHANNEL_SETTINGS, SHELL_TELEGRAM, DELEGATE}
      ensures LegalTable(table) && IsPlain(table) && table != ""
    {
      WordIsFit(table);
    }
  }

  lemma NamesDiffer()
    ensures |ADAPTERS| == 8 && |CHANNEL_SETTINGS| == 35 && |SHELL_TELEGRAM| == 14
    ensures |CHANNEL| == 17 && |TOKEN_ENV| == 9 && |CHAT_ID| == 7 && |BOT_NAME| == 8
    ensures |MODEL| == 5 && |EFFORT| == 6
    ensures !InFamily(ADAPTERS, CHANNEL_SETTINGS) && !InFamily(ADAPTERS, SHELL_TELEGRAM)
    ensures !InFamily(CHANNEL_SETTINGS, SHELL_TELEGRAM)
    ensures InFamily(CHANNEL_SETTINGS, CHANNEL_SETTINGS) && InFamily(SHELL_TELEGRAM, SHELL_TELEGRAM)
  {
    assert (SHELL_TELEGRAM + ".")[0] == 's' && CHANNEL_SETTINGS[0] == 'a';
  }

  // ----- what is read after them -----

  predicate AllFit(changes: seq<Change>, keys: set<string>) {
    forall c :: c in changes ==> c.key in keys && LegalTable(c.table) && IsPlain(c.table) && c.table != ""
  }

  predicate Apart(changes: seq<Change>) {
    forall i, j :: 0 <= i < j < |changes| ==> changes[i].table != changes[j].table || changes[i].key != changes[j].key
  }

  /** Settings of different places, made one after the other, all read back at the end. */
  lemma {:induction false} AllReadBack(text: string, keys: set<string>, changes: seq<Change>)
    requires Tidy(text, keys) && BareKeys(keys)
    requires AllFit(changes, keys) && Apart(changes)
    ensures Tidy(SetAll(text, changes), keys)
    ensures forall c :: c in changes ==> Read(SetAll(text, changes), c.table, c.key) == Ok(Some(c.value))
    ensures forall table, key :: (forall c :: c in changes ==> c.table != table || c.key != key) ==>
              Read(SetAll(text, changes), table, key) == Read(text, table, key)
  {
    if changes != [] {
      var n := |changes| - 1;
      var before, last := changes[..n], changes[n];
      AllReadBack(text, keys, before);
      QuotedIsRendered(last.value);
      TidyEdit(SetAll(text, before), keys, last.table, last.key, last.value);
      TidyKept(SetAll(text, before), keys, last.table, last.key, Quoted(last.value));
      assert forall c :: c in changes ==> c == last || c in before;
    }
  }

  lemma BindingFits(variable: string, chatId: string, botName: string)
    ensures BareKeys(EDITED)
    ensures AllFit(Binding(variable, chatId, botName), EDITED) && Apart(Binding(variable, chatId, botName))
  {
    NamesAreFit();
    NamesDiffer();
    FourApart(ADAPTERS, CHANNEL_SETTINGS, SHELL_TELEGRAM, CHANNEL, TOKEN_ENV, CHAT_ID, BOT_NAME,
              Binding(variable, chatId, botName));
  }

  /** After a binding all four settings read back together, and no other lookup changed. */
  lemma BindingReadsBack(text: string, variable: string, chatId: string, botName: string)
    requires Tidy(text, EDITED)
    ensures Tidy(Bound(text, variable, chatId, botName), EDITED)
    ensures forall c :: c in Binding(variable, chatId, botName) ==>
              Read(Bound(text, variable, chatId, botName), c.table, c.key) == Ok(Some(c.value))
    ensures forall table, key ::
              (forall c :: c in Binding(variable, chatId, botName) ==> c.table != table || c.key != key) ==>
              Read(Bound(text, variable, chatId, botName), table, key) == Read(text, table, key)
  {
    BindingFits(variable, chatId, botName);
    AllReadBack(text, EDITED, Binding(variable, chatId, botName));
  }

  lemma FourApart(t1: string, t2: string, t3: string, k1: string, k2: string, k3: string, k4: string,
                  changes: seq<Change>)
    requires |t1| != |t2| && |t1| != |t3| && |t2| != |t3| && |k2| != |k3|
    requires |changes| == 4 && changes[0].table == t1 && changes[1].table == t2
    requires changes[2].table == t2 && changes[3].table == t3
    requires changes[0].key == k1 && changes[1].key == k2 && changes[2].key == k3 && changes[3].key == k4
    requires forall t :: t in {t1, t2, t3} ==> LegalTable(t) && IsPlain(t) && t != ""
    requires {k1, k2, k3, k4} <= EDITED
    ensures AllFit(changes, EDITED) && Apart(changes)
  {
    forall c | c in changes ensures c.key in EDITED && LegalTable(c.table) && IsPlain(c.table) && c.table != "" {
      var i :| 0 <= i < |changes| && changes[i] == c;
      assert c.key in {k1, k2, k3, k4} && c.table in {t1, t2, t3};
    }
  }

  lemma Edited(text: string, table: string, key: string, v: string)
    requires Tidy(text, EDITED) && key in EDITED && BareKeys(EDITED)
    requires LegalTable(table) && IsPlain(table) && table != ""
    ensures var edited := SetText(text, table, key, Quoted(v));
            && Tidy(edited, EDITED) && Read(edited, table, key) == Ok(Some(v))
            && forall table', key' :: (table' != table || key' != key) ==>
                 Read(edited, table', key') == Read(text, table', key')
  {
    QuotedIsRendered(v);
    TidyEdit(text, EDITED, table, key, v);
    TidyKept(text, EDITED, table, key, Quoted(v));
  }

  /** Unbinding names the null adapter, and leaves nothing of the channel's settings or of the
      shell's Telegram table to be read; every other lookup is as before. */
  lemma UnbindingReads(text: string, table: string, key: string)
    requires Tidy(text, EDITED)
    ensures Tidy(Unbound(text), EDITED)
    ensures Read(Unbound(text), table, key) ==
            if table == ADAPTERS && key == CHANNEL then Ok(Some(NULL_ADAPTER))
            else if InFamily(table, CHANNEL_SETTINGS) || InFamily(table, SHELL_TELEGRAM) then Ok(None)
            else Read(text, table, key)
  {
    NamesAreFit();
    NamesDiffer();
    var t1 := WithoutTable(text, CHANNEL_SETTINGS);
    var t2 := WithoutTable(t1, SHELL_TELEGRAM);
    RemovedTableTidy(text, EDITED, CHANNEL_SETTINGS);
    RemovedTableTidy(t1, EDITED, SHELL_TELEGRAM);
    RemovedTableReads(text, EDITED, CHANNEL_SETTINGS, table, key);
    RemovedTableReads(t1, EDITED, SHELL_TELEGRAM, table, key);
    Edited(t2, ADAPTERS, CHANNEL, NULL_ADAPTER);
  }

  /** Binding and then unbinding: no token variable is read, and the null adapter is named. */
  lemma BindThenUnbind(text: string, variable: string, chatId: string, botName: string)
    requires Tidy(text, EDITED)
    ensures var unbound := Unbound(Bound(text, variable, chatId, botName));
            && Read(unbound, CHANNEL_SETTINGS, TOKEN_ENV) == Ok(None)
            && Read(unbound, SHELL_TELEGRAM, BOT_NAME) == Ok(None)
            && Read(unbound, ADAPTERS, CHANNEL) == Ok(Some(NULL_ADAPTER))
  {
    NamesDiffer();
    var bound := Bound(text, variable, chatId, botName);
    BindingReadsBack(text, variable, chatId, botName);
    UnbindingReads(bound, CHANNEL_SETTINGS, TOKEN_ENV);
    UnbindingReads(bound, SHELL_TELEGRAM, BOT_NAME);
    UnbindingReads(bound, ADAPTERS, CHANNEL);
  }

  /** A saved agent model reads back with its effort, or with none when none was given. */
  lemma AgentModelReadsBack(text: string, model: string, effort: Option<string>)
    requires Tidy(text, EDITED)
    ensures Read(AgentModel(text, model, effort), DELEGATE, MODEL) == Ok(Some(model))
    ensures Read(AgentModel(text, model, effort), DELEGATE, EFFORT) == Ok(effort)
    ensures forall table, key | table != DELEGATE || (key != MODEL && key != EFFORT) ::
              Read(AgentModel(text, model, effort), table, key) == Read(text, table, key)
  {
    NamesAreFit();
    NamesDiffer();
    var t1 := SetText(text, DELEGATE, MODEL, Quoted(model));
    Edited(text, DELEGATE, MODEL, model);
    match effort {
      case Some(e) => Edited(t1, DELEGATE, EFFORT, e);
      case None =>
        forall table, key ensures Read(WithoutKey(t1, DELEGATE, EFFORT), table, key) ==
            if table == DELEGATE && key == EFFORT then Ok(None) else Read(t1, table, key)
        {
          RemovedKeyReads(t1, EDITED, DELEGATE, EFFORT, table, key);
        }
    }
  }

  // ----- the file -----

  /** How each step of a replacement turns out: reading the candidate, the atomic write, what
      follows it, and putting the original back. */
  datatype Outcome = Outcome(readable: bool, written: bool, followed: bool, restored: bool)

  class File {
    var content: string

    constructor (content: string)
      ensures this.content == content
    {
      this.content := content;
    }

    /** `replace(with:afterWrite:)`: the file changes exactly when the caller is told so,
        unless putting the original back fails as well. */
    method Replace(text: string, world: Outcome) returns (ok: bool)
      modifies this
      ensures ok <==> world.readable && world.written && world.followed
      ensures ok ==> content == text
      ensures !ok && (world.restored || !world.readable || !world.written) ==> content == old(content)
      ensures content == text || content == old(content)
    {
      var original := content;
      if !world.readable || !world.written {
        return false;
      }
      content := text;
      if !world.followed {
        if world.restored {
          content := original;
        }
        return false;
      }
      return true;
    }
  }
}
