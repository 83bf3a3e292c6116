/**
 * The operator's side of the terminal prompts of normalizacion.py, as a
 * scripted sequence of answers. `ask()` returns None when the operator
 * cancels; here that is `NoAnswer`, and an answer of the wrong kind for the
 * prompt it meets is read the same way. Once the script is used up every
 * prompt reads `NoAnswer`.
 */
module Prompts {
  import opened Wrappers

  datatype Answer =
    | Enter                     // accept the prompt's default
    | Yes
    | No
    | Typed(text: string)       // text typed into a text prompt
    | Picked(choice: string)    // a choice of a select prompt
    | Ticked(picks: set<string>) // the values ticked in a checkbox prompt
    | NoAnswer                  // cancelled: `ask()` returned None

  /** The answer at the cursor. */
  function Next(script: seq<Answer>, pos: nat): Answer {
    if pos < |script| then script[pos] else NoAnswer
  }

  /** The cursor after one prompt; it stops at the end of the script. */
  function Advance(script: seq<Answer>, pos: nat): (p: nat)
    requires pos <= |script|
    ensures p <= |script|
    ensures pos < |script| ==> p == pos + 1
    ensures pos == |script| ==> p == pos
  {
    if pos < |script| then pos + 1 else pos
  }

  /** `questionary.confirm(default=d).ask()`. */
  function Confirm(a: Answer, default: bool): (r: Option<bool>)
    ensures r.Some? <==> a.Enter? || a.Yes? || a.No?
    ensures a.Enter? ==> r == Some(default)
  {
    match a
    case Enter => Some(default)
    case Yes => Some(true)
    case No => Some(false)
    case _ => None
  }

  /** Python truthiness of a confirm answer: None counts as no. */
  predicate Accepted(r: Option<bool>) { r == Some(true) }

  /** `questionary.text(default=d).ask()`; without a default the default text is empty. */
  function Text(a: Answer, default: string): (r: Option<string>)
    ensures r.Some? <==> a.Enter? || a.Typed?
    ensures a.Enter? ==> r == Some(default)
  {
    match a
    case Enter => Some(default)
    case Typed(t) => Some(t)
    case _ => None
  }

  /** `questionary.select(choices).ask()`: Enter takes the first choice; the library refuses an empty list. */
  function Select(a: Answer, choices: seq<string>): (r: Option<string>)
    requires choices != []
    ensures r.Some? ==> r.value in choices
    ensures a.Enter? ==> r == Some(choices[0])
    ensures a.Picked? && a.choice in choices ==> r == Some(a.choice)
  {
    match a
    case Enter => Some(choices[0])
    case Picked(c) => if c in choices then Some(c) else None
    case _ => None
  }

  /** The choices whose value is ticked, in choice order. */
  function TickedChoices(choices: seq<string>, picks: set<string>): (r: seq<string>)
    ensures |r| <= |choices|
    ensures forall c :: c in r <==> c in choices && c in picks
  {
    if choices == [] then []
    else (if choices[0] in picks then [choices[0]] else []) + TickedChoices(choices[1..], picks)
  }

  /** `questionary.checkbox(choices).ask()`: Enter with nothing ticked gives `[]`. */
  function Checkbox(a: Answer, choices: seq<string>): (r: Option<seq<string>>)
    ensures r.Some? <==> a.Enter? || a.Ticked?
    ensures a.Enter? ==> r == Some([])
    ensures r.Some? ==> forall c :: c in r.value ==> c in choices
  {
    match a
    case Enter => Some([])
    case Ticked(picks) => Some(TickedChoices(choices, picks))
    case _ => None
  }
}
