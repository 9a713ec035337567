/**
 * The answers of the interactive run (script.py:60-66). An empty answer
 * selects a fixed default; any other answer is parsed, and a parse that
 * fails ends the run. The text parsers (int() over split()) are parameters
 * of the model: each returns None where the source would raise.
 */
module Prompts {
  import opened Colour
  import opened Results

  /** The run's configuration, shared by every file of the batch. */
  datatype Settings = Settings(background: Rgb, threshold: int, replacement: Rgb, extension: string)

  const DefaultBackground := Rgb(0, 0, 0)
  const DefaultThreshold := 50
  const DefaultReplacement := Rgb(255, 255, 255)
  const DefaultExtension := "png"

  /** The value of one prompt: the default for an empty answer, otherwise the parsed answer. */
  function Answer<T>(text: string, parse: string -> Option<T>, default: T): (r: Option<T>)
    ensures |text| == 0 ==> r == Some(default)
    ensures |text| > 0 ==> r == parse(text)
  {
    if text == "" then Some(default) else parse(text)
  }

  /**
   * The four configurable prompts. The result is None exactly when some
   * non-empty answer fails to parse; otherwise each field is its default
   * when the answer is empty and the parsed answer when it is not. The
   * extension is taken verbatim.
   */
  function ReadSettings(backgroundText: string, thresholdText: string, replacementText: string, extensionText: string,
                        parseColour: string -> Option<Rgb>, parseInt: string -> Option<int>): (r: Option<Settings>)
    ensures r.None? <==>
              (backgroundText != "" && parseColour(backgroundText).None?) ||
              (thresholdText != "" && parseInt(thresholdText).None?) ||
              (replacementText != "" && parseColour(replacementText).None?)
    ensures r.Some? ==> r.value.background == (if backgroundText == "" then Rgb(0, 0, 0) else parseColour(backgroundText).value)
    ensures r.Some? ==> r.value.threshold == (if thresholdText == "" then 50 else parseInt(thresholdText).value)
    ensures r.Some? ==> r.value.replacement == (if replacementText == "" then Rgb(255, 255, 255) else parseColour(replacementText).value)
    ensures r.Some? ==> r.value.extension == (if extensionText == "" then "png" else extensionText)
  {
    var background := Answer(backgroundText, parseColour, DefaultBackground);
    var threshold := Answer(thresholdText, parseInt, DefaultThreshold);
    var replacement := Answer(replacementText, parseColour, DefaultReplacement);
    var extension := if extensionText == "" then DefaultExtension else extensionText;
    if background.None? || threshold.None? || replacement.None? then None
    else Some(Settings(background.value, threshold.value, replacement.value, extension))
  }

  /**
   * Typing the default is the same as leaving the answer empty: a non-empty
   * answer that parses to the default gives the settings of a blank answer,
   * whatever the other answers are.
   */
  lemma ParsedDefaultIsBlank(backgroundText: string, thresholdText: string, replacementText: string, extensionText: string,
                             parseColour: string -> Option<Rgb>, parseInt: string -> Option<int>)
    ensures parseColour(backgroundText) == Some(Rgb(0, 0, 0)) ==>
              ReadSettings(backgroundText, thresholdText, replacementText, extensionText, parseColour, parseInt)
              == ReadSettings("", thresholdText, replacementText, extensionText, parseColour, parseInt)
    ensures parseInt(thresholdText) == Some(50) ==>
              ReadSettings(backgroundText, thresholdText, replacementText, extensionText, parseColour, parseInt)
              == ReadSettings(backgroundText, "", replacementText, extensionText, parseColour, parseInt)
    ensures parseColour(replacementText) == Some(Rgb(255, 255, 255)) ==>
              ReadSettings(backgroundText, thresholdText, replacementText, extensionText, parseColour, parseInt)
              == ReadSettings(backgroundText, thresholdText, "", extensionText, parseColour, parseInt)
    ensures ReadSettings(backgroundText, thresholdText, replacementText, "png", parseColour, parseInt)
            == ReadSettings(backgroundText, thresholdText, replacementText, "", parseColour, parseInt)
  {
  }

  /** All-blank answers give the documented defaults, whatever the parsers do. */
  lemma BlankAnswersGiveDefaults(parseColour: string -> Option<Rgb>, parseInt: string -> Option<int>)
    ensures ReadSettings("", "", "", "", parseColour, parseInt) == Some(Settings(Rgb(0, 0, 0), 50, Rgb(255, 255, 255), "png"))
  {
  }
}
