/** The prompt-using part of components/PromptManager.tsx: choosing a prompt
    to use, entering one variable's value, and the top-level resolve flow
    `handleResolvePrompt`, which expands `prompt` variables through the
    resolver and then substitutes the whole value map. */
module PromptManager {
  import opened Wrappers
  import opened Text
  import opened PromptVariables

  // ---------------------------------------------------------------------------
  // The value map update `{...variableValues, [name]: value}`
  // ---------------------------------------------------------------------------

  /** The keys of a value map, in order. */
  function Keys(m: ValueMap): (ks: seq<string>)
    ensures |ks| == |m|
    ensures forall i :: 0 <= i < |m| ==> ks[i] == m[i].0
  {
    if |m| == 0 then [] else [m[0].0] + Keys(m[1..])
  }

  /** Object spread with one computed key: an existing key keeps its position
      and takes the new value, a new key is appended. */
  function Put(m: ValueMap, key: string, v: Value): (r: ValueMap)
    ensures Lookup(r, key) == Some(v)
  {
    if |m| == 0 then [(key, v)]
    else if m[0].0 == key then [(key, v)] + m[1..]
    else [m[0]] + Put(m[1..], key, v)
  }

  /** Every other key keeps its value. */
  lemma {:induction false} PutOthers(m: ValueMap, key: string, v: Value, k: string)
    requires k != key
    ensures Lookup(Put(m, key, v), k) == Lookup(m, k)
    decreases |m|
  {
    if |m| > 0 && m[0].0 != key {
      PutOthers(m[1..], key, v, k);
      assert Put(m, key, v)[1..] == Put(m[1..], key, v);
    }
  }

  /** The key order is kept, with a new key at the end. */
  lemma {:induction false} PutKeys(m: ValueMap, key: string, v: Value)
    ensures Keys(Put(m, key, v)) == if key in Keys(m) then Keys(m) else Keys(m) + [key]
    decreases |m|
  {
    if |m| > 0 {
      assert Keys(m) == [m[0].0] + Keys(m[1..]);
      if m[0].0 != key {
        PutKeys(m[1..], key, v);
        var r := Put(m, key, v);
        assert r[1..] == Put(m[1..], key, v);
        assert Keys(r) == [m[0].0] + Keys(r[1..]);
      } else {
        var r := Put(m, key, v);
        assert Keys(r) == [key] + Keys(m[1..]);
      }
    }
  }

  /** Distinct keys stay distinct. */
  lemma PutDistinct(m: ValueMap, key: string, v: Value)
    requires DistinctKeys(m)
    ensures DistinctKeys(Put(m, key, v))
  {
    var r := Put(m, key, v);
    PutKeys(m, key, v);
    forall i, j | 0 <= i < j < |r| ensures r[i].0 != r[j].0 {
      assert Keys(r)[i] == r[i].0 && Keys(r)[j] == r[j].0;
      assert |Keys(m)| == |m|;
      if j < |m| {
        assert Keys(m)[i] == m[i].0 && Keys(m)[j] == m[j].0;
      } else {
        assert key !in Keys(m) && r[j].0 == key;
        assert Keys(m)[i] == r[i].0;
      }
    }
  }

  // ---------------------------------------------------------------------------
  // The top-level resolve flow
  // ---------------------------------------------------------------------------

  /** One iteration of the loop in `handleResolvePrompt`: a `prompt` variable
      with a truthy value that names an existing prompt has its placeholder
      replaced by that prompt resolved from depth 0; a failure of that call is
      caught and leaves the text as it was, and every other variable is
      skipped. */
  function TopStep(text: string, v: Variable, prompts: seq<PromptDoc>, values: ValueMap): string {
    match Lookup(values, v.name)
    case None => text
    case Some(val) =>
      if v.typ == PromptType && Truthy(val) && Find(prompts, ValueToString(val)).Some? then
        match Resolve(ValueToString(val), prompts, values, 0)
        case Ok(nested) => ReplaceAll(text, NamePattern(v.name), nested)
        case Err(_) => text
      else text
  }

  /** The loop over the used prompt's variables, in declaration order. */
  function TopLoop(text: string, vars: seq<Variable>, prompts: seq<PromptDoc>, values: ValueMap): string
    decreases |vars|
  {
    if |vars| == 0 then text
    else TopLoop(TopStep(text, vars[0], prompts, values), vars[1..], prompts, values)
  }

  /** The text `handleResolvePrompt` stores: the loop's result with the whole
      value map substituted. */
  function TopResolve(p: PromptDoc, prompts: seq<PromptDoc>, values: ValueMap): string {
    Substitute(TopLoop(p.content, p.variables, prompts, values), values)
  }

  /** The state of the prompt manager that the use view reads and writes. */
  class PromptManager {
    var prompts: seq<PromptDoc>
    var usingPrompt: Option<PromptDoc>
    var variableValues: ValueMap
    var resolvedContent: Option<string>

    /** Nothing selected, an empty value map and no resolved text. */
    constructor (prompts: seq<PromptDoc>)
      ensures this.prompts == prompts
      ensures usingPrompt == None && variableValues == [] && resolvedContent == None
    {
      this.prompts := prompts;
      usingPrompt := None;
      variableValues := [];
      resolvedContent := None;
    }

    /** `handleUse`: selects the prompt and resets the value map and the
        resolved text. */
    method HandleUse(p: PromptDoc)
      modifies this
      ensures usingPrompt == Some(p) && variableValues == [] && resolvedContent == None
      ensures prompts == old(prompts)
    {
      usingPrompt := Some(p);
      variableValues := [];
      resolvedContent := None;
    }

    /** The `onChange` of one variable input: only that key of the value map
        changes. */
    method SetVariableValue(name: string, v: Value)
      modifies this
      ensures variableValues == Put(old(variableValues), name, v)
      ensures prompts == old(prompts) && usingPrompt == old(usingPrompt)
      ensures resolvedContent == old(resolvedContent)
    {
      variableValues := Put(variableValues, name, v);
    }

    /** `handleResolvePrompt`: with no selected prompt nothing happens;
        otherwise the working text is reassigned over the variables loop, the
        whole map is substituted, and the result is stored. */
    method HandleResolvePrompt()
      modifies this
      ensures old(usingPrompt).None? ==> resolvedContent == old(resolvedContent)
      ensures old(usingPrompt).Some? ==>
                resolvedContent == Some(TopResolve(old(usingPrompt).value, old(prompts), old(variableValues)))
      ensures prompts == old(prompts) && usingPrompt == old(usingPrompt)
      ensures variableValues == old(variableValues)
    {
      if usingPrompt.None? {
        return;
      }
      var p := usingPrompt.value;
      var resolved := p.content;
      for i := 0 to |p.variables|
        invariant TopLoop(p.content, p.variables, prompts, variableValues)
               == TopLoop(resolved, p.variables[i..], prompts, variableValues)
        invariant prompts == old(prompts) && usingPrompt == old(usingPrompt)
        invariant variableValues == old(variableValues) && resolvedContent == old(resolvedContent)
      {
        var v := p.variables[i];
        assert p.variables[i..][1..] == p.variables[i + 1..];
        var val := Lookup(variableValues, v.name);
        if v.typ == PromptType && val.Some? && Truthy(val.value) {
          var nestedId := ValueToString(val.value);
          var nestedPrompt := Find(prompts, nestedId);
          if nestedPrompt.Some? {
            var nested := ResolvePromptVariable(nestedId, prompts, variableValues, 0);
            if nested.Ok? {
              resolved := ReplaceAll(resolved, NamePattern(v.name), nested.value);
            }
          }
        }
      }
      resolved := SubstituteVariables(resolved, variableValues);
      resolvedContent := Some(resolved);
    }
  }

  // ---------------------------------------------------------------------------
  // Properties of the flow
  // ---------------------------------------------------------------------------

  /** The nested call cannot fail: the prompt exists and it starts at depth 0,
      so its root lookup succeeds and deeper failures are caught inside it.
      The placeholder therefore becomes the resolved nested text. */
  lemma TopStepExpands(text: string, v: Variable, prompts: seq<PromptDoc>, values: ValueMap)
    requires v.typ == PromptType
    requires Lookup(values, v.name).Some? && Truthy(Lookup(values, v.name).value)
    requires Find(prompts, ValueToString(Lookup(values, v.name).value)).Some?
    ensures Resolve(ValueToString(Lookup(values, v.name).value), prompts, values, 0).Ok?
    ensures TopStep(text, v, prompts, values)
         == ReplaceAll(text, NamePattern(v.name),
                       Resolve(ValueToString(Lookup(values, v.name).value), prompts, values, 0).value)
  {
    ResolveFailsOnlyAtRoot(ValueToString(Lookup(values, v.name).value), prompts, values, 0);
  }

  /** Only `prompt` variables whose value names an existing prompt change the
      text in the loop. */
  predicate Expands(v: Variable, prompts: seq<PromptDoc>, values: ValueMap) {
    v.typ == PromptType && Lookup(values, v.name).Some? && Truthy(Lookup(values, v.name).value)
    && Find(prompts, ValueToString(Lookup(values, v.name).value)).Some?
  }

  /** A loop in which no variable expands leaves the text alone: non-`prompt`
      variables, falsy values and ids naming no prompt all wait for the final
      substitution. */
  lemma {:induction false} TopLoopSkips(text: string, vars: seq<Variable>, prompts: seq<PromptDoc>, values: ValueMap)
    requires forall i :: 0 <= i < |vars| ==> !Expands(vars[i], prompts, values)
    ensures TopLoop(text, vars, prompts, values) == text
    decreases |vars|
  {
    if |vars| > 0 {
      assert !Expands(vars[0], prompts, values);
      assert TopStep(text, vars[0], prompts, values) == text;
      TopLoopSkips(text, vars[1..], prompts, values);
    }
  }

  /** A prompt none of whose variables expands resolves to its content with
      the value map substituted: an id that names no prompt is replaced by the
      raw id, like any other value. */
  lemma TopResolvePlain(p: PromptDoc, prompts: seq<PromptDoc>, values: ValueMap)
    requires forall i :: 0 <= i < |p.variables| ==> !Expands(p.variables[i], prompts, values)
    ensures TopResolve(p, prompts, values) == Substitute(p.content, values)
  {
    TopLoopSkips(p.content, p.variables, prompts, values);
  }
}
