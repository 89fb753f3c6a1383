/**
 Choosing the configuration file: the fixed two-entry menu, one prompt
 (`get_user_selection`) and the loop in `main` that prompts until an existing
 file is chosen.
 */
module Menu {

  /** The menu: key to configuration file name. */
  const BmOptions: map<int, string> := map[1 := "01_BEV_SP21_7k4W.xml", 2 := "02_BEV_SP21_22kW.xml"]

  /** One line typed at the prompt, as `int(...)` sees it. */
  datatype Input = Integer(value: int) | NotInteger

  /** What one call of `get_user_selection` does. */
  datatype Selection =
    | Choice(file: string)   // returns the file behind a menu key
    | InvalidChoice          // prints "Invalid choice" and calls exit()
    | InvalidInput           // int() raises ValueError

  /** How the prompting loop of `main` ends. */
  datatype LoopOutcome =
    | Selected(file: string, attempt: nat)  // the file chosen at prompt number `attempt` exists
    | Exited(attempt: nat)                  // exit() after an unknown key at prompt number `attempt`
    | EndOfInput                            // input() reached end of file

  function GetUserSelection(input: Input): (s: Selection)
    ensures s.Choice? <==> input.Integer? && (input.value == 1 || input.value == 2)
    ensures s == Choice("01_BEV_SP21_7k4W.xml") <==> input == Integer(1)
    ensures s == Choice("02_BEV_SP21_22kW.xml") <==> input == Integer(2)
    ensures s == InvalidInput <==> input.NotInteger?
  {
    match input
    case NotInteger => InvalidInput
    case Integer(k) => if k in BmOptions then Choice(BmOptions[k]) else InvalidChoice
  }

  /** The loop goes round again on this input: it is not a number, or it names
      a menu file that is not on disk. */
  predicate Retries(input: Input, present: set<string>)
  {
    match GetUserSelection(input)
    case InvalidInput => true
    case Choice(f) => f !in present
    case InvalidChoice => false
  }

  /** The loop's outcome from prompt number `i` on. */
  function SelectFrom(inputs: seq<Input>, present: set<string>, i: nat): LoopOutcome
    decreases |inputs| - i
  {
    if i >= |inputs| then EndOfInput
    else match GetUserSelection(inputs[i])
      case InvalidInput => SelectFrom(inputs, present, i + 1)
      case InvalidChoice => Exited(i)
      case Choice(f) => if f in present then Selected(f, i) else SelectFrom(inputs, present, i + 1)
  }

  /** The loop of `main`: `inputs` are the lines the user types, `present` the
      configuration files that exist in the input directory. */
  method SelectConfiguration(inputs: seq<Input>, present: set<string>) returns (r: LoopOutcome)
    ensures r == SelectFrom(inputs, present, 0)
  {
    var i := 0;
    while i < |inputs|
      invariant i <= |inputs|
      invariant SelectFrom(inputs, present, 0) == SelectFrom(inputs, present, i)
    {
      var selection := GetUserSelection(inputs[i]);
      if selection.InvalidChoice? {
        return Exited(i);
      } else if selection.Choice? && selection.file in present {
        return Selected(selection.file, i);
      }
      i := i + 1;
    }
    r := EndOfInput;
  }

  /** The loop ends at the first prompt that does not retry: with that file if it
      is a menu key whose file exists, by exit() if it is an unknown number; and
      if every prompt retries, at the end of input. */
  lemma {:induction false} SelectFromOutcome(inputs: seq<Input>, present: set<string>, i: nat)
    requires i <= |inputs|
    ensures var r := SelectFrom(inputs, present, i);
            match r
            case Selected(f, k) =>
              i <= k < |inputs| && GetUserSelection(inputs[k]) == Choice(f) && f in present &&
              forall j :: i <= j < k ==> Retries(inputs[j], present)
            case Exited(k) =>
              i <= k < |inputs| && GetUserSelection(inputs[k]) == InvalidChoice &&
              forall j :: i <= j < k ==> Retries(inputs[j], present)
            case EndOfInput =>
              forall j :: i <= j < |inputs| ==> Retries(inputs[j], present)
    decreases |inputs| - i
  {
    if i < |inputs| && Retries(inputs[i], present) {
      SelectFromOutcome(inputs, present, i + 1);
    }
  }

  /** Only menu files can come out of the loop. */
  lemma SelectedIsMenuFile(inputs: seq<Input>, present: set<string>)
    ensures var r := SelectFrom(inputs, present, 0);
            r.Selected? ==> r.file in BmOptions.Values && r.file in present
  {
    SelectFromOutcome(inputs, present, 0);
    var r := SelectFrom(inputs, present, 0);
    if r.Selected? {
      var k := inputs[r.attempt].value;
      assert BmOptions[k] == r.file;
    }
  }
}
