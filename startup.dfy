/** The start-button handler `TelegramApp.start` (client_win.py:124-137):
    strip the three text fields, refuse to go on unless all of them are
    non-empty and a CSV file has been selected, otherwise record the settings
    in the configuration and hand them to the bot. */
module Startup {
  import opened Text

  /** A configuration value as the JSON file holds it: the three text
      settings are strings, the delay is a number. */
  datatype Setting = Str(text: string) | Int(value: int)

  type Config = map<string, Setting>

  /** The text of the error box the guard shows (client_win.py:131). */
  const FillAllFields: string := "Please fill in all fields and select a CSV file."

  /** What pressing Start leads to: the error box, or a launch that saves
      `saved` as the configuration and runs the bot with the other fields.
      `csvFile` is the selected path; "" stands for no selection. */
  datatype StartResult =
    | ShowError(message: string)
    | Launch(saved: Config, apiId: string, apiHash: string, phone: string, delay: int,
             csvFile: string)

  /** `start`, given the current configuration, the raw text of the three
      entry fields, the already parsed delay and the selected CSV path. */
  function Start(config: Config, apiIdEntry: string, apiHashEntry: string, phoneEntry: string,
                 delay: int, csvFile: string): (r: StartResult)
    ensures r.Launch? <==>
              !AllSpace(apiIdEntry) && !AllSpace(apiHashEntry) && !AllSpace(phoneEntry) &&
              csvFile != ""
    ensures r.ShowError? ==> r.message == FillAllFields
    ensures r.Launch? ==>
              r.apiId == Strip(apiIdEntry) && r.apiHash == Strip(apiHashEntry) &&
              r.phone == Strip(phoneEntry) && r.delay == delay && r.csvFile == csvFile
    ensures r.Launch? ==>
              r.saved.Keys == config.Keys + {"api_id", "api_hash", "phone", "delay"} &&
              r.saved["api_id"] == Str(r.apiId) && r.saved["api_hash"] == Str(r.apiHash) &&
              r.saved["phone"] == Str(r.phone) && r.saved["delay"] == Int(delay)
    ensures r.Launch? ==>
              forall key :: (key in config && key != "api_id" && key != "api_hash" &&
                             key != "phone" && key != "delay") ==> r.saved[key] == config[key]
  {
    StripSpec(apiIdEntry);
    StripSpec(apiHashEntry);
    StripSpec(phoneEntry);
    var apiId, apiHash, phone := Strip(apiIdEntry), Strip(apiHashEntry), Strip(phoneEntry);
    if !(apiId != "" && apiHash != "" && phone != "" && csvFile != "") then
      ShowError(FillAllFields)
    else
      var saved := config["api_id" := Str(apiId)]["api_hash" := Str(apiHash)]
                         ["phone" := Str(phone)]["delay" := Int(delay)];
      Launch(saved, apiId, apiHash, phone, delay, csvFile)
  }

  /** Pressing Start again with the values a launch saved, as the entry
      fields show them on the next start-up (client_win.py:92-107), and with
      the same CSV file selected again, launches the same run and saves the
      same configuration. */
  lemma RestartIsStable(config: Config, apiIdEntry: string, apiHashEntry: string,
                        phoneEntry: string, delay: int, csvFile: string)
    requires Start(config, apiIdEntry, apiHashEntry, phoneEntry, delay, csvFile).Launch?
    ensures var r := Start(config, apiIdEntry, apiHashEntry, phoneEntry, delay, csvFile);
            Start(r.saved, r.apiId, r.apiHash, r.phone, r.delay, r.csvFile) == r
  {
    var r := Start(config, apiIdEntry, apiHashEntry, phoneEntry, delay, csvFile);
    StripIdempotent(apiIdEntry);
    StripIdempotent(apiHashEntry);
    StripIdempotent(phoneEntry);
    var again := Start(r.saved, r.apiId, r.apiHash, r.phone, r.delay, r.csvFile);
    assert again.saved == r.saved;
  }
}
