/** Turning a console answer into a decision: `convert_yes_no_to_bool`. */
module Prompts {
  import Text

  /** `convert_yes_no_to_bool`: an answer means "yes" exactly when it starts
      with a lower-case `y`; the empty answer means "no". */
  function ConvertYesNoToBool(userInput: string): (r: bool)
    ensures r <==> |userInput| > 0 && userInput[0] == 'y'
  {
    Text.StartsWith(userInput, "y")
  }

  /** The comparison is case-sensitive: an answer starting with `Y` is "no". */
  lemma UpperCaseYesIsNo(userInput: string)
    requires |userInput| > 0 && userInput[0] == 'Y'
    ensures !ConvertYesNoToBool(userInput)
  {
  }

  /** Callers pass the answer through `lower()` first, so as the user typed
      it, any answer starting with `y` or `Y` means "yes". */
  lemma LoweredAnswer(typed: string)
    ensures ConvertYesNoToBool(Text.ToLower(typed)) <==> |typed| > 0 && (typed[0] == 'y' || typed[0] == 'Y')
  {
    if |typed| > 0 {
      assert Text.ToLower(typed)[0] == Text.LowerChar(typed[0]);
    }
  }
}
