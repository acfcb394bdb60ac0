/** The input for one prompt variable, components/VariableInput.tsx: the
    validation gate in front of `onChange`, the number shown in a number
    input, the slider condition, the prompt picker's search filter and list
    size, and which widget each variable type gets. */
module VariableInput {
  import opened Wrappers
  import opened Text
  import opened PromptVariables
  import opened Prompts

  // ---------------------------------------------------------------------------
  // The validation gate
  // ---------------------------------------------------------------------------

  /** The state of one input. `emitted` lists the values handed to the
      parent's `onChange`, oldest first. */
  class VariableInput {
    const variable: Variable
    var localError: Option<string>
    var searchQuery: string
    var emitted: seq<Value>

    /** Only values the variable admits ever reach the parent. */
    predicate Valid()
      reads this
    {
      forall i :: 0 <= i < |emitted| ==> Admits(variable, emitted[i])
    }

    /** The local error starts as the parent's error, the search as "". */
    constructor (variable: Variable, error: Option<string>)
      ensures Valid()
      ensures this.variable == variable && localError == error && searchQuery == "" && emitted == []
    {
      this.variable := variable;
      localError := error;
      searchQuery := "";
      emitted := [];
    }

    /** The effect on `error`: a new parent error replaces the local one. */
    method SyncError(error: Option<string>)
      modifies this
      ensures localError == error
      ensures searchQuery == old(searchQuery) && emitted == old(emitted)
    {
      localError := error;
    }

    /** `handleChange`: an accepted value clears the local error and is
        passed on; a refused one only sets the local error to the message. */
    method HandleChange(newValue: Value)
      requires Valid()
      modifies this
      ensures Valid()
      ensures Admits(variable, newValue) ==> localError == None && emitted == old(emitted) + [newValue]
      ensures !Admits(variable, newValue) ==>
                localError == ValidateVariableValue(variable, newValue).error && localError.Some?
                && emitted == old(emitted)
      ensures searchQuery == old(searchQuery)
    {
      var validation := ValidateVariableValue(variable, newValue);
      if validation.valid {
        localError := None;
        emitted := emitted + [newValue];
      } else {
        localError := validation.error;
      }
    }

    /** Typing in the prompt picker's search box. */
    method SetSearchQuery(q: string)
      modifies this
      ensures searchQuery == q
      ensures localError == old(localError) && emitted == old(emitted)
    {
      searchQuery := q;
    }
  }

  // ---------------------------------------------------------------------------
  // Number inputs
  // ---------------------------------------------------------------------------

  /** The number shown: the given number itself, a string read by
      `parseFloat(value) || 0`, or `config.min || 0` when no value is given.
      Only a given NaN stays NaN. */
  function NumValue(value: Option<Value>, config: Config): (r: Value)
    ensures r.NaN? <==> value == Some(NaN)
    ensures value.None? ==> r == Num(config.min.GetOr(0))
    ensures value.Some? && value.value.Num? ==> r == value.value
  {
    match value
    case None => Num(config.min.GetOr(0))
    case Some(Str(s)) => Num(ParseNumber(s).GetOr(0))
    case Some(Num(n)) => Num(n)
    case Some(NaN) => NaN
  }

  /** A number stored as its decimal text is shown as that number. */
  lemma NumValueOfText(n: int, config: Config)
    ensures NumValue(Some(Str(IntToString(n))), config) == Num(n)
  {
    IntToStringParses(n);
  }

  /** Text that does not read as a number is shown as 0. */
  lemma NumValueOfNonNumber(s: string, config: Config)
    requires |s| > 0 && !IsWhitespace(s[0]) && !IsDigit(s[0]) && s[0] != '-' && s[0] != '+'
    ensures NumValue(Some(Str(s)), config) == Num(0)
  {
    ParseNumberNoDigits(s);
  }

  /** What the number box hands to `handleChange`: 0 for a cleared box,
      otherwise `parseFloat` of its text. */
  function NumberBoxValue(text: string): (r: Value)
    ensures text == "" ==> r == Num(0)
    ensures r.NaN? <==> text != "" && ParseNumber(text).None?
  {
    if text == "" then Num(0)
    else match ParseNumber(text)
      case Some(n) => Num(n)
      case None => NaN
  }

  /** Clearing the number box sends 0, which is accepted exactly when the
      bounds admit 0. */
  lemma ClearedBox(v: Variable)
    requires v.typ == NumberType
    ensures ValidateVariableValue(v, NumberBoxValue("")).valid
        <==> (v.config.min.None? || v.config.min.value <= 0) && (v.config.max.None? || 0 <= v.config.max.value)
  {
  }

  /** Text that is no number never reaches the parent from the number box:
      it is refused as not a number. */
  lemma UnreadableBoxRefused(v: Variable, text: string)
    requires v.typ == NumberType && text != "" && ParseNumber(text).None?
    ensures ValidateVariableValue(v, NumberBoxValue(text)) == Reject("Value must be a number")
  {
  }

  /** The slider and the range label appear only when both bounds are set. */
  predicate ShowSlider(config: Config) {
    config.min.Some? && config.max.Some?
  }

  // ---------------------------------------------------------------------------
  // What each type renders
  // ---------------------------------------------------------------------------

  /** The widget of one variable type; `NoWidget` is `return null`. */
  datatype Widget =
    | TextBox
    | NumberBox(slider: bool)
    | OptionSelect(options: seq<string>)
    | PromptPicker
    | NoWidget

  /** The `switch` on the variable type. An enum without options shows an
      empty select. */
  function Render(v: Variable): (w: Widget)
    ensures w == NoWidget <==> v.typ.Unknown?
    ensures w.NumberBox? ==> (w.slider <==> ShowSlider(v.config))
    ensures w.OptionSelect? ==> w.options == v.config.options.GetOr([])
  {
    match v.typ
    case StringType => TextBox
    case NumberType => NumberBox(ShowSlider(v.config))
    case EnumType => OptionSelect(v.config.options.GetOr([]))
    case PromptType => PromptPicker
    case Unknown(_) => NoWidget
  }

  // ---------------------------------------------------------------------------
  // The prompt picker
  // ---------------------------------------------------------------------------

  /** A prompt matches a non-empty search when its title or content contains
      the query, ignoring case. */
  predicate SearchMatches(p: Prompt, query: string) {
    query == "" || Contains(Lower(p.row.title), Lower(query)) || Contains(Lower(p.row.content), Lower(query))
  }

  /** `prompts.filter(...)`: the matching prompts in their order; an empty
      search keeps every prompt. */
  function FilteredPrompts(prompts: seq<Prompt>, query: string): (r: seq<Prompt>)
    ensures |r| <= |prompts|
    decreases |prompts|
  {
    if |prompts| == 0 then []
    else
      var rest := FilteredPrompts(prompts[1..], query);
      if SearchMatches(prompts[0], query) then [prompts[0]] + rest else rest
  }

  /** The filter lists exactly the matching prompts, each as often as the
      list has it. */
  lemma {:induction false} FilterKeeps(prompts: seq<Prompt>, query: string)
    ensures forall p :: p in FilteredPrompts(prompts, query) <==> p in prompts && SearchMatches(p, query)
    ensures forall p :: multiset(FilteredPrompts(prompts, query))[p]
                        == if SearchMatches(p, query) then multiset(prompts)[p] else 0
    decreases |prompts|
  {
    if |prompts| > 0 {
      FilterKeeps(prompts[1..], query);
      assert prompts == [prompts[0]] + prompts[1..];
      assert multiset(prompts) == multiset{prompts[0]} + multiset(prompts[1..]);
    }
  }

  /** The filter keeps the order: filtering a list made of two parts lists
      the first part's matches before the second part's. */
  lemma {:induction false} FilterSplits(xs: seq<Prompt>, ys: seq<Prompt>, query: string)
    ensures FilteredPrompts(xs + ys, query) == FilteredPrompts(xs, query) + FilteredPrompts(ys, query)
    decreases |xs|
  {
    if |xs| == 0 {
      assert xs + ys == ys;
    } else {
      assert (xs + ys)[1..] == xs[1..] + ys;
      FilterSplits(xs[1..], ys, query);
    }
  }

  /** An empty search shows the whole list, in order. */
  lemma {:induction false} EmptySearchKeepsAll(prompts: seq<Prompt>)
    ensures FilteredPrompts(prompts, "") == prompts
    decreases |prompts|
  {
    if |prompts| > 0 {
      EmptySearchKeepsAll(prompts[1..]);
      assert prompts == [prompts[0]] + prompts[1..];
    }
  }

  /** The select's `size`: one row per matching prompt plus the placeholder
      option, at most five. */
  function ListSize(count: nat): (size: nat)
    ensures 1 <= size <= 5
    ensures size < 5 ==> size == count + 1
    ensures count + 1 <= 5 ==> size == count + 1
  {
    if count + 1 < 5 then count + 1 else 5
  }
}
