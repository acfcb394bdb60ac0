/** The editing state of components/PromptEditor.tsx: the auto-detect effect
    that declares new placeholders as string variables, the tag and variable
    list handlers, the enum options text field, and the save gate. */
module PromptEditor {
  import opened Wrappers
  import opened Text
  import opened PromptVariables

  // ---------------------------------------------------------------------------
  // Variables
  // ---------------------------------------------------------------------------

  /** A variable as auto-detect and "Add Variable" create it: a string with an
      empty config. */
  function StringVariable(name: string, order: int): (v: Variable)
    ensures v.name == name && v.typ == StringType && v.config == EmptyConfig && v.orderIndex == order
  {
    Variable(name, StringType, EmptyConfig, order)
  }

  /** Every variable's `order_index` is its position in the list. */
  predicate Numbered(vars: seq<Variable>) {
    forall i :: 0 <= i < |vars| ==> vars[i].orderIndex == i
  }

  /** The auto-detect effect: each detected name absent from the names
      declared before the effect ran is appended as a string variable whose
      `order_index` is the list's length at that point. */
  function AppendDetected(prev: seq<Variable>, detected: seq<string>, declared: seq<string>)
    : (r: seq<Variable>)
    ensures |prev| <= |r| && r[..|prev|] == prev
    decreases |detected|
  {
    if |detected| == 0 then prev
    else if detected[0] in declared then AppendDetected(prev, detected[1..], declared)
    else AppendDetected(prev + [StringVariable(detected[0], |prev|)], detected[1..], declared)
  }

  /** After auto-detect every detected name is declared. */
  lemma {:induction false} AppendDetectedDeclares(prev: seq<Variable>, detected: seq<string>, declared: seq<string>, x: string)
    requires forall y :: y in declared ==> y in Names(prev)
    requires x in detected || x in Names(prev)
    ensures x in Names(AppendDetected(prev, detected, declared))
    decreases |detected|
  {
    var r := AppendDetected(prev, detected, declared);
    if |detected| == 0 {
    } else if detected[0] in declared {
      if x == detected[0] {
        assert x in Names(prev);
      } else {
        assert x in detected[1..] || x in Names(prev);
      }
      AppendDetectedDeclares(prev, detected[1..], declared, x);
    } else {
      var next := prev + [StringVariable(detected[0], |prev|)];
      assert forall y :: y in Names(prev) ==> y in Names(next) by {
        forall y | y in Names(prev) ensures y in Names(next) {
          var i :| 0 <= i < |prev| && Names(prev)[i] == y;
          assert Names(next)[i] == y;
        }
      }
      assert Names(next)[|prev|] == detected[0];
      if x != detected[0] && x !in Names(prev) {
        assert x in detected[1..];
      }
      AppendDetectedDeclares(next, detected[1..], declared, x);
    }
  }

  /** Auto-detect keeps `order_index` equal to the position. */
  lemma {:induction false} AppendDetectedNumbered(prev: seq<Variable>, detected: seq<string>, declared: seq<string>)
    requires Numbered(prev)
    ensures Numbered(AppendDetected(prev, detected, declared))
    decreases |detected|
  {
    if |detected| > 0 {
      if detected[0] in declared {
        AppendDetectedNumbered(prev, detected[1..], declared);
      } else {
        var next := prev + [StringVariable(detected[0], |prev|)];
        assert Numbered(next);
        AppendDetectedNumbered(next, detected[1..], declared);
      }
    }
  }

  /** After auto-detect the save-time check of the same content passes. */
  lemma AutoDetectValidates(content: string, vars: seq<Variable>)
    ensures ValidateVariables(content, AppendDetected(vars, Placeholders(content), Names(vars))).valid
  {
    var r := AppendDetected(vars, Placeholders(content), Names(vars));
    forall x | x in Placeholders(content) ensures x in Names(r) {
      AppendDetectedDeclares(vars, Placeholders(content), Names(vars), x);
    }
  }

  /** `{ ...v, ...updates }` for a `Partial<PromptVariable>`: each present
      field of the update overrides the variable's. */
  datatype VariableUpdate = VariableUpdate(
    name: Option<string>, typ: Option<VarType>, config: Option<Config>, orderIndex: Option<int>)

  function Merge(v: Variable, u: VariableUpdate): (r: Variable)
    ensures r.name == u.name.GetOr(v.name) && r.typ == u.typ.GetOr(v.typ)
    ensures r.config == u.config.GetOr(v.config) && r.orderIndex == u.orderIndex.GetOr(v.orderIndex)
  {
    Variable(u.name.GetOr(v.name), u.typ.GetOr(v.typ), u.config.GetOr(v.config), u.orderIndex.GetOr(v.orderIndex))
  }

  /** The update the type selector sends: the new type and an empty config. */
  function TypeChange(t: VarType): VariableUpdate {
    VariableUpdate(None, Some(t), Some(EmptyConfig), None)
  }

  /** Changing the type resets the config and keeps name and position. */
  lemma TypeChangeResetsConfig(v: Variable, t: VarType)
    ensures Merge(v, TypeChange(t)) == Variable(v.name, t, EmptyConfig, v.orderIndex)
  {
  }

  /** `variables.filter((_, i) => i !== index)`. */
  function RemoveAt(vars: seq<Variable>, index: int): (r: seq<Variable>)
    ensures 0 <= index < |vars| ==> r == vars[..index] + vars[index + 1..]
    ensures !(0 <= index < |vars|) ==> r == vars
  {
    if 0 <= index < |vars| then vars[..index] + vars[index + 1..] else vars
  }

  // ---------------------------------------------------------------------------
  // Enum options text
  // ---------------------------------------------------------------------------

  /** `.map((s) => s.trim()).filter(Boolean)` over the split pieces. */
  function CleanOptions(parts: seq<string>): seq<string> {
    if |parts| == 0 then []
    else
      var t := Trim(parts[0]);
      var rest := CleanOptions(parts[1..]);
      if t == "" then rest else [t] + rest
  }

  /** Options the field can hold: non-empty, no comma, no surrounding whitespace. */
  predicate CleanOption(o: string) {
    o != "" && ',' !in o && !IsWhitespace(o[0]) && !IsWhitespace(o[|o| - 1])
  }

  /** Trimming adds no character, so comma-free pieces give clean options. */
  lemma {:induction false} CleanOptionsClean(parts: seq<string>)
    requires forall k :: 0 <= k < |parts| ==> ',' !in parts[k]
    ensures forall k :: 0 <= k < |CleanOptions(parts)| ==> CleanOption(CleanOptions(parts)[k])
    decreases |parts|
  {
    if |parts| > 0 {
      var rest := CleanOptions(parts[1..]);
      CleanOptionsClean(parts[1..]);
      var t := Trim(parts[0]);
      if t != "" {
        TrimClean(parts[0]);
        AllCleanCons(t, rest);
      }
    }
  }

  lemma AllCleanCons(t: string, rest: seq<string>)
    requires CleanOption(t) && forall k :: 0 <= k < |rest| ==> CleanOption(rest[k])
    ensures forall k :: 0 <= k < |[t] + rest| ==> CleanOption(([t] + rest)[k])
  {
    forall k | 0 <= k < |[t] + rest| ensures CleanOption(([t] + rest)[k]) {
      if k > 0 {
        assert ([t] + rest)[k] == rest[k - 1];
      }
    }
  }

  /** A comma-free piece that is not blank trims to a clean option. */
  lemma TrimClean(x: string)
    requires ',' !in x && Trim(x) != ""
    ensures CleanOption(Trim(x))
  {
    TrimKeepsOut(x, ',');
  }

  /** The enum options field: `text.split(",")`, each piece trimmed, the
      empty ones dropped. Every option is non-empty, has no surrounding
      whitespace and holds no comma. */
  function ParseEnumOptions(text: string): (r: seq<string>)
    ensures forall k :: 0 <= k < |r| ==> CleanOption(r[k])
  {
    CleanOptionsClean(Split(text, ','));
    CleanOptions(Split(text, ','))
  }

  /** The options list is shown as `options.join(", ")`; splitting that text,
      after any leading whitespace, and cleaning the pieces gives the same
      options. */
  lemma {:induction false} CleanJoinedOptions(pre: string, opts: seq<string>, sep: string)
    requires sep == ", " && IsBlank(pre) && ',' !in pre
    requires forall k :: 0 <= k < |opts| ==> CleanOption(opts[k])
    ensures CleanOptions(Split(pre + Join(opts, sep), ',')) == opts
    decreases |opts|
  {
    if |opts| == 0 {
      assert pre + Join(opts, sep) == pre;
      SplitNoSep(pre, ',');
    } else if |opts| == 1 {
      CleanJoinedSingle(pre, opts[0], sep);
      assert opts == [opts[0]];
    } else {
      var tail := " " + Join(opts[1..], sep);
      assert IsBlank(" ");
      CleanJoinedOptions(" ", opts[1..], sep);
      CleanJoinedFirst(pre, opts, sep, tail);
    }
  }

  /** One option after the leading whitespace. */
  lemma CleanJoinedSingle(pre: string, o: string, sep: string)
    requires IsBlank(pre) && ',' !in pre && CleanOption(o)
    ensures CleanOptions(Split(pre + Join([o], sep), ',')) == [o]
  {
    assert pre + Join([o], sep) == pre + o;
    assert ',' !in pre + o;
    SplitNoSep(pre + o, ',');
    TrimPadded(pre, o);
    CleanCons(pre + o, []);
  }

  /** The first option is split off whole and trimmed to itself. */
  lemma CleanJoinedFirst(pre: string, opts: seq<string>, sep: string, tail: string)
    requires sep == ", " && |opts| >= 2 && IsBlank(pre) && ',' !in pre && CleanOption(opts[0])
    requires tail == " " + Join(opts[1..], sep)
    requires CleanOptions(Split(tail, ',')) == opts[1..]
    ensures CleanOptions(Split(pre + Join(opts, sep), ',')) == opts
  {
    var o := opts[0];
    assert [o] + opts[1..] == opts;
    JoinWithSeparator(opts, sep, tail);
    Regroup(pre, o, tail);
    assert ',' !in pre + o;
    SplitCons(pre + o, tail, ',');
    TrimPadded(pre, o);
    CleanCons(pre + o, Split(tail, ','));
  }

  lemma Regroup(pre: string, o: string, tail: string)
    ensures pre + (o + [','] + tail) == (pre + o) + [','] + tail
  {
  }

  /** Cleaning a list whose first piece is not blank keeps that piece, trimmed. */
  lemma CleanCons(x: string, rest: seq<string>)
    requires Trim(x) != ""
    ensures CleanOptions([x] + rest) == [Trim(x)] + CleanOptions(rest)
  {
    assert ([x] + rest)[1..] == rest;
  }

  /** Joining with ", " puts a comma and a space after the first option. */
  lemma JoinWithSeparator(opts: seq<string>, sep: string, tail: string)
    requires sep == ", " && |opts| >= 2 && tail == " " + Join(opts[1..], sep)
    ensures Join(opts, sep) == opts[0] + [','] + tail
  {
    assert sep == [','] + " ";
  }

  /** Reading back the shown text of clean options gives the options. */
  lemma ParseJoined(opts: seq<string>, sep: string)
    requires sep == ", "
    requires forall k :: 0 <= k < |opts| ==> CleanOption(opts[k])
    ensures ParseEnumOptions(Join(opts, sep)) == opts
  {
    var shown := Join(opts, sep);
    assert "" + shown == shown;
    assert IsBlank("");
    CleanJoinedOptions("", opts, sep);
  }

  /** Editing the displayed text without changing it keeps the options. */
  lemma EnumOptionsRoundTrip(text: string)
    ensures ParseEnumOptions(Join(ParseEnumOptions(text), ", ")) == ParseEnumOptions(text)
  {
    ParseJoined(ParseEnumOptions(text), ", ");
  }

  // ---------------------------------------------------------------------------
  // Tags
  // ---------------------------------------------------------------------------

  /** `tags.filter((tag) => tag !== t)`. */
  function RemoveAll(tags: seq<string>, t: string): (r: seq<string>)
    ensures forall x :: x in r <==> x in tags && x != t
    ensures |r| <= |tags|
  {
    if |tags| == 0 then []
    else if tags[0] == t then RemoveAll(tags[1..], t)
    else [tags[0]] + RemoveAll(tags[1..], t)
  }

  /** Removing keeps the remaining tags in order and free of duplicates. */
  lemma {:induction false} RemoveAllDistinct(tags: seq<string>, t: string)
    requires Distinct(tags)
    ensures Distinct(RemoveAll(tags, t))
    decreases |tags|
  {
    if |tags| > 0 {
      DistinctTail(tags);
      RemoveAllDistinct(tags[1..], t);
      if tags[0] != t {
        assert tags[0] !in tags[1..] by {
          forall k | 0 <= k < |tags[1..]| ensures tags[1..][k] != tags[0] {
            assert tags[1..][k] == tags[k + 1];
          }
        }
        DistinctCons(tags[0], RemoveAll(tags[1..], t));
      }
    }
  }

  /** Removing a tag that is not there changes nothing. */
  lemma {:induction false} RemoveAbsent(tags: seq<string>, t: string)
    requires t !in tags
    ensures RemoveAll(tags, t) == tags
    decreases |tags|
  {
    if |tags| > 0 {
      assert t !in tags[1..];
      RemoveAbsent(tags[1..], t);
    }
  }

  // ---------------------------------------------------------------------------
  // Saving
  // ---------------------------------------------------------------------------

  /** The record handed to `onSave`. */
  datatype SaveInput = SaveInput(
    title: string, content: string, emoji: Option<string>, isPublic: bool,
    tags: seq<string>, variables: seq<Variable>)

  /** `variables.map((v, i) => ({ ...v, order_index: i }))`. */
  function Renumber(vars: seq<Variable>): (r: seq<Variable>)
    ensures |r| == |vars| && Numbered(r)
    ensures forall i :: 0 <= i < |vars| ==>
              r[i].name == vars[i].name && r[i].typ == vars[i].typ && r[i].config == vars[i].config
  {
    seq(|vars|, i requires 0 <= i < |vars| => vars[i].(orderIndex := i))
  }

  /** The message listing undeclared placeholders. */
  function MissingMessage(missing: seq<string>): string {
    "Missing variable definitions: " + Join(missing, ", ")
  }

  /** The checks of `handleSave`, in order, and the record it submits. */
  function SaveDecision(title: string, content: string, emoji: string, isPublic: bool,
                        tags: seq<string>, vars: seq<Variable>): Result<SaveInput, string>
  {
    if Trim(title) == "" then Err("Title is required")
    else if Trim(content) == "" then Err("Content is required")
    else
      var validation := ValidateVariables(content, vars);
      if !validation.valid then Err(MissingMessage(validation.missing))
      else Ok(SaveInput(Trim(title), Trim(content), if emoji == "" then None else Some(emoji),
                        isPublic, tags, Renumber(vars)))
  }

  /** A save goes through exactly when title and content are not blank and
      every placeholder is declared. */
  lemma SaveAccepts(title: string, content: string, emoji: string, isPublic: bool,
                    tags: seq<string>, vars: seq<Variable>)
    ensures SaveDecision(title, content, emoji, isPublic, tags, vars).Ok?
            <==> !IsBlank(title) && !IsBlank(content) && ValidateVariables(content, vars).valid
  {
  }

  /** The save is refused for a blank title first, then for blank content,
      then for undeclared placeholders, each with its message. */
  lemma SaveRejections(title: string, content: string, emoji: string, isPublic: bool,
                       tags: seq<string>, vars: seq<Variable>)
    ensures var r := SaveDecision(title, content, emoji, isPublic, tags, vars);
            (IsBlank(title) ==> r == Err("Title is required"))
            && (!IsBlank(title) && IsBlank(content) ==> r == Err("Content is required"))
            && (!IsBlank(title) && !IsBlank(content) && !ValidateVariables(content, vars).valid
                ==> r == Err(MissingMessage(ValidateVariables(content, vars).missing)))
  {
  }

  /** What a successful save submits: the trimmed title and content (neither
      empty), `emoji || null`, and the variables renumbered by position with
      nothing else changed. */
  lemma SaveSubmits(title: string, content: string, emoji: string, isPublic: bool,
                    tags: seq<string>, vars: seq<Variable>)
    requires SaveDecision(title, content, emoji, isPublic, tags, vars).Ok?
    ensures var input := SaveDecision(title, content, emoji, isPublic, tags, vars).value;
            input.title == Trim(title) && input.title != "" && input.content == Trim(content)
            && input.content != "" && (input.emoji.None? <==> emoji == "")
            && (input.emoji.Some? ==> input.emoji.value == emoji)
            && input.isPublic == isPublic && input.tags == tags
            && |input.variables| == |vars| && Numbered(input.variables)
            && (forall i :: 0 <= i < |vars| ==> input.variables[i] == vars[i].(orderIndex := i))
  {
  }

  /** Once auto-detect has run on the content, only a blank title or content
      can stop a save. */
  lemma SaveAfterAutoDetect(title: string, content: string, emoji: string, isPublic: bool,
                            tags: seq<string>, vars: seq<Variable>)
    requires !IsBlank(title) && !IsBlank(content)
    ensures SaveDecision(title, content, emoji, isPublic, tags,
                         AppendDetected(vars, Placeholders(content), Names(vars))).Ok?
  {
    AutoDetectValidates(content, vars);
    SaveAccepts(title, content, emoji, isPublic, tags, AppendDetected(vars, Placeholders(content), Names(vars)));
  }

  // ---------------------------------------------------------------------------
  // The editor
  // ---------------------------------------------------------------------------

  class PromptEditor {
    var title: string
    var content: string
    var emoji: string
    var isPublic: bool
    var tags: seq<string>
    var tagInput: string
    var variables: seq<Variable>
    var saving: bool
    var error: Option<string>

    /** The editor opened on a prompt's fields; a missing emoji shows as "".
        Whatever tag list the prompt carries is taken as it is. */
    constructor (title: string, content: string, emoji: Option<string>, isPublic: bool,
                 tags: seq<string>, variables: seq<Variable>)
      ensures this.title == title && this.content == content && this.emoji == emoji.GetOr("")
      ensures this.isPublic == isPublic && this.tags == tags && this.variables == variables
      ensures tagInput == "" && !saving && error == None
    {
      this.title := title;
      this.content := content;
      this.emoji := emoji.GetOr("");
      this.isPublic := isPublic;
      this.tags := tags;
      tagInput := "";
      this.variables := variables;
      saving := false;
      error := None;
    }

    /** The auto-detect effect, run after the content changes: the detected
        names are checked against the names declared before the loop. */
    method AutoDetect()
      modifies this
      ensures variables == AppendDetected(old(variables), Placeholders(content), Names(old(variables)))
      ensures title == old(title) && content == old(content) && tags == old(tags)
      ensures emoji == old(emoji) && isPublic == old(isPublic) && saving == old(saving)
      ensures tagInput == old(tagInput) && error == old(error)
    {
      var detected := ParseVariablesFromContent(content);
      var existing := Names(variables);
      var prev := variables;
      for k := 0 to |detected|
        invariant AppendDetected(prev, detected, existing) == AppendDetected(variables, detected[k..], existing)
        invariant title == old(title) && content == old(content) && tags == old(tags)
        invariant emoji == old(emoji) && isPublic == old(isPublic) && saving == old(saving)
        invariant tagInput == old(tagInput) && error == old(error)
      {
        assert detected[k..][1..] == detected[k + 1..];
        var name := detected[k];
        if name !in existing {
          variables := variables + [StringVariable(name, |variables|)];
        }
      }
      assert detected[|detected|..] == [];
    }

    /** `handleAddTag`: a non-blank trimmed input not yet in the list is
        appended and the input cleared; otherwise nothing changes. A list
        without repeats keeps none. */
    method AddTag()
      modifies this
      ensures var t := Trim(old(tagInput));
              if t != "" && t !in old(tags) then tags == old(tags) + [t] && tagInput == ""
              else tags == old(tags) && tagInput == old(tagInput)
      ensures Distinct(old(tags)) ==> Distinct(tags)
      ensures variables == old(variables) && title == old(title) && content == old(content)
      ensures emoji == old(emoji) && isPublic == old(isPublic) && saving == old(saving) && error == old(error)
    {
      var trimmed := Trim(tagInput);
      if trimmed != "" && trimmed !in tags {
        if Distinct(tags) {
          DistinctSnoc(tags, trimmed);
        }
        tags := tags + [trimmed];
        tagInput := "";
      }
    }

    /** `handleRemoveTag`: every copy of the tag goes, the rest keep their order. */
    method RemoveTag(t: string)
      modifies this
      ensures tags == RemoveAll(old(tags), t)
      ensures Distinct(old(tags)) ==> Distinct(tags)
      ensures tagInput == old(tagInput) && variables == old(variables)
      ensures title == old(title) && content == old(content) && emoji == old(emoji)
      ensures isPublic == old(isPublic) && saving == old(saving) && error == old(error)
    {
      if Distinct(tags) {
        RemoveAllDistinct(tags, t);
      }
      tags := RemoveAll(tags, t);
    }

    /** `handleAddVariable`: appends `var<n+1>`, a string variable with
        `order_index` n, where n is the old length. */
    method AddVariable()
      modifies this
      ensures variables == old(variables) + [StringVariable("var" + NatToString(|old(variables)|+ 1), |old(variables)|)]
      ensures tags == old(tags) && title == old(title) && content == old(content)
      ensures emoji == old(emoji) && isPublic == old(isPublic) && tagInput == old(tagInput)
      ensures saving == old(saving) && error == old(error)
    {
      variables := variables + [StringVariable("var" + NatToString(|variables| + 1), |variables|)];
    }

    /** `handleUpdateVariable`: the update is merged into the variable at
        `index` only; an index outside the list changes nothing. */
    method UpdateVariable(index: int, u: VariableUpdate)
      modifies this
      ensures |variables| == |old(variables)|
      ensures forall i :: 0 <= i < |variables| ==>
                variables[i] == if i == index then Merge(old(variables)[i], u) else old(variables)[i]
      ensures tags == old(tags) && title == old(title) && content == old(content)
      ensures emoji == old(emoji) && isPublic == old(isPublic) && tagInput == old(tagInput)
      ensures saving == old(saving) && error == old(error)
    {
      if 0 <= index < |variables| {
        variables := variables[index := Merge(variables[index], u)];
      }
    }

    /** `handleRemoveVariable`: drops the variable at `index`, keeping the
        others in order. */
    method RemoveVariable(index: int)
      modifies this
      ensures variables == RemoveAt(old(variables), index)
      ensures tags == old(tags) && title == old(title) && content == old(content)
      ensures emoji == old(emoji) && isPublic == old(isPublic) && tagInput == old(tagInput)
      ensures saving == old(saving) && error == old(error)
    {
      variables := RemoveAt(variables, index);
    }

    /** What the save checks decide for the form as it stands. */
    function Decision(): Result<SaveInput, string>
      reads this
    {
      SaveDecision(title, content, emoji, isPublic, tags, variables)
    }

    /** `handleSave`. The error is cleared, then set by the first failing
        check; on success the record is handed to `onSave`, whose failure
        message (`saveFailure`) becomes the error. `saving` ends false. */
    method HandleSave(saveFailure: Option<string>) returns (submitted: Option<SaveInput>)
      modifies this
      ensures tags == old(tags) && variables == old(variables) && title == old(title) && content == old(content)
      ensures emoji == old(emoji) && isPublic == old(isPublic) && tagInput == old(tagInput)
      ensures var d := old(Decision());
              (d.Ok? ==> submitted == Some(d.value) && error == saveFailure && !saving)
              && (d.Err? ==> submitted == None && error == Some(d.error) && saving == old(saving))
    {
      submitted := Submit(Decision(), saveFailure);
    }

    /** The rest of `handleSave` once the checks have decided. */
    method Submit(d: Result<SaveInput, string>, saveFailure: Option<string>) returns (submitted: Option<SaveInput>)
      modifies this
      ensures tags == old(tags) && variables == old(variables) && title == old(title) && content == old(content)
      ensures emoji == old(emoji) && isPublic == old(isPublic) && tagInput == old(tagInput)
      ensures d.Ok? ==> submitted == Some(d.value) && error == saveFailure && !saving
      ensures d.Err? ==> submitted == None && error == Some(d.error) && saving == old(saving)
    {
      error := None;
      match d {
        case Err(message) =>
          error := Some(message);
          submitted := None;
        case Ok(record) =>
          saving := true;
          submitted := Some(record);
          error := saveFailure;
          saving := false;
      }
    }
  }

  lemma DistinctSnoc(xs: seq<string>, x: string)
    requires Distinct(xs) && x !in xs
    ensures Distinct(xs + [x])
  {
    var r := xs + [x];
    forall i, j | 0 <= i < j < |r| ensures r[i] != r[j] {
      assert r[i] == xs[i];
      if j < |xs| { assert r[j] == xs[j]; }
    }
  }
}
