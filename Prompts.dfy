/** The data side of hooks/usePrompts.ts over in-memory tables: the join of
    prompts with their tag and variable rows, the hook's fetch state, the
    partial update object of `updatePrompt`, the wholesale replacement of a
    prompt's tags and variables, the defaults of `createPrompt`, and the
    tag and text filters of `searchPrompts`. */
module Prompts {
  import opened Wrappers
  import opened Text
  import opened PromptVariables

  // ---------------------------------------------------------------------------
  // Tables
  // ---------------------------------------------------------------------------

  /** A row of the `prompts` table; timestamps are not modelled. */
  datatype PromptRow = PromptRow(
    id: string, userId: string, title: string, content: string, emoji: Option<string>, isPublic: bool)

  /** A row of a table keyed by `prompt_id`: `prompt_tags` holds tag paths,
      `prompt_variables` holds variables. */
  datatype Row<T> = Row(promptId: string, item: T)

  /** The three tables, each in the order its query returns it. */
  datatype Tables = Tables(prompts: seq<PromptRow>, tags: seq<Row<string>>, variables: seq<Row<Variable>>)

  /** A prompt with its relations, `{ ...prompt, tags, variables }`. */
  datatype Prompt = Prompt(row: PromptRow, tags: seq<string>, variables: seq<Variable>)

  /** `rows.filter((r) => r.prompt_id === id).map(...)`: the items of the rows
      of one prompt, in row order. */
  function Of<T>(rows: seq<Row<T>>, id: string): (r: seq<T>)
    ensures |r| <= |rows|
    decreases |rows|
  {
    if |rows| == 0 then []
    else if rows[0].promptId == id then [rows[0].item] + Of(rows[1..], id)
    else Of(rows[1..], id)
  }

  /** An item belongs to a prompt exactly when a row pairs them. */
  lemma {:induction false} OfMember<T>(rows: seq<Row<T>>, id: string, x: T)
    ensures x in Of(rows, id) <==> Row(id, x) in rows
    decreases |rows|
  {
    if |rows| > 0 {
      OfMember(rows[1..], id, x);
      assert rows == [rows[0]] + rows[1..];
    }
  }

  /** Filtering distributes over concatenation, so row order is kept. */
  lemma {:induction false} OfAppend<T>(a: seq<Row<T>>, b: seq<Row<T>>, id: string)
    ensures Of(a + b, id) == Of(a, id) + Of(b, id)
    decreases |a|
  {
    if |a| > 0 {
      assert (a + b)[0] == a[0] && (a + b)[1..] == a[1..] + b;
      OfAppend(a[1..], b, id);
      if a[0].promptId == id {
        assert Of(a + b, id) == [a[0].item] + Of(a[1..] + b, id);
        assert Of(a, id) == [a[0].item] + Of(a[1..], id);
        assert [a[0].item] + (Of(a[1..], id) + Of(b, id)) == ([a[0].item] + Of(a[1..], id)) + Of(b, id);
      } else {
        assert Of(a + b, id) == Of(a[1..] + b, id);
      }
    } else {
      assert a + b == b;
    }
  }

  /** One prompt with its relations. */
  function WithRelations(p: PromptRow, t: Tables): (r: Prompt)
    ensures r.row == p
  {
    Prompt(p, Of(t.tags, p.id), Of(t.variables, p.id))
  }

  /** The join: every selected prompt row, in order, with its relations. */
  function JoinRows(rows: seq<PromptRow>, t: Tables): (r: seq<Prompt>)
    ensures |r| == |rows|
    ensures forall i :: 0 <= i < |rows| ==> r[i].row == rows[i]
  {
    seq(|rows|, i requires 0 <= i < |rows| => WithRelations(rows[i], t))
  }

  /** The join of a whole fetch. */
  function Fetched(t: Tables): seq<Prompt> {
    JoinRows(t.prompts, t)
  }

  /** A joined prompt carries exactly the tag paths and variables paired
      with its id. */
  lemma JoinRelations(rows: seq<PromptRow>, t: Tables, i: int, path: string, v: Variable)
    requires 0 <= i < |rows|
    ensures path in JoinRows(rows, t)[i].tags <==> Row(rows[i].id, path) in t.tags
    ensures v in JoinRows(rows, t)[i].variables <==> Row(rows[i].id, v) in t.variables
  {
    OfMember(t.tags, rows[i].id, path);
    OfMember(t.variables, rows[i].id, v);
  }

  // ---------------------------------------------------------------------------
  // The hook's fetch state
  // ---------------------------------------------------------------------------

  /** The message a caught error leaves: an `Error`'s own message, or the
      operation's fallback text for anything else thrown. */
  function Message(thrown: Option<string>, fallback: string): (m: string)
    ensures thrown.Some? ==> m == thrown.value
    ensures thrown.None? ==> m == fallback
  {
    thrown.GetOr(fallback)
  }

  const FetchFailed := "Failed to fetch prompts"

  /** The state of `usePrompts`. */
  class PromptsState {
    var prompts: seq<Prompt>
    var loading: bool
    var error: Option<string>

    constructor ()
      ensures prompts == [] && loading && error == None
    {
      prompts := [];
      loading := true;
      error := None;
    }

    /** `fetchPrompts`, with the backend's answer as a parameter: no user
        empties the list without a query; a failed query keeps the list and
        records the message; otherwise the list becomes the join. Loading
        always ends false. */
    method FetchPrompts(user: Option<string>, answer: Result<Tables, Option<string>>)
      modifies this
      ensures !loading
      ensures user.None? ==> prompts == [] && error == old(error)
      ensures user.Some? && answer.Ok? ==> prompts == Fetched(answer.value) && error == None
      ensures user.Some? && answer.Err? ==>
                prompts == old(prompts) && error == Some(Message(answer.error, FetchFailed))
    {
      if user.None? {
        prompts := [];
        loading := false;
        return;
      }
      loading := true;
      error := None;
      match answer {
        case Ok(t) => prompts := Fetched(t);
        case Err(thrown) => error := Some(Message(thrown, FetchFailed));
      }
      loading := false;
    }
  }

  // ---------------------------------------------------------------------------
  // updatePrompt
  // ---------------------------------------------------------------------------

  /** `UpdatePromptInput`; `emoji` is `undefined`, `null` or a string. */
  datatype UpdateInput = UpdateInput(
    title: Option<string>, content: Option<string>, emoji: Option<Option<string>>, isPublic: Option<bool>,
    tags: Option<seq<string>>, variables: Option<seq<Variable>>)

  /** A value of the update object. */
  datatype Field = TextField(text: string) | EmojiField(emoji: Option<string>) | FlagField(flag: bool)

  /** The update object holds exactly the defined fields of the input, each
      with the input's value. */
  predicate Describes(data: map<string, Field>, input: UpdateInput) {
    && data.Keys <= {"title", "content", "emoji", "is_public"}
    && ("title" in data <==> input.title.Some?)
    && ("content" in data <==> input.content.Some?)
    && ("emoji" in data <==> input.emoji.Some?)
    && ("is_public" in data <==> input.isPublic.Some?)
    && (input.title.Some? ==> data["title"] == TextField(input.title.value))
    && (input.content.Some? ==> data["content"] == TextField(input.content.value))
    && (input.emoji.Some? ==> data["emoji"] == EmojiField(input.emoji.value))
    && (input.isPublic.Some? ==> data["is_public"] == FlagField(input.isPublic.value))
  }

  /** Fills `updateData` field by field. */
  method BuildUpdateData(input: UpdateInput) returns (data: map<string, Field>)
    ensures Describes(data, input)
  {
    data := map[];
    if input.title.Some? {
      data := data["title" := TextField(input.title.value)];
    }
    if input.content.Some? {
      data := data["content" := TextField(input.content.value)];
    }
    if input.emoji.Some? {
      data := data["emoji" := EmojiField(input.emoji.value)];
    }
    if input.isPublic.Some? {
      data := data["is_public" := FlagField(input.isPublic.value)];
    }
  }

  /** The row the backend stores for an update object. */
  function ApplyUpdate(p: PromptRow, data: map<string, Field>): PromptRow {
    PromptRow(
      p.id, p.userId,
      if "title" in data && data["title"].TextField? then data["title"].text else p.title,
      if "content" in data && data["content"].TextField? then data["content"].text else p.content,
      if "emoji" in data && data["emoji"].EmojiField? then data["emoji"].emoji else p.emoji,
      if "is_public" in data && data["is_public"].FlagField? then data["is_public"].flag else p.isPublic)
  }

  /** What an input asks of a row: the given fields change, the others stay. */
  function ApplyInput(p: PromptRow, input: UpdateInput): (r: PromptRow)
    ensures r.id == p.id && r.userId == p.userId
  {
    PromptRow(p.id, p.userId, input.title.GetOr(p.title), input.content.GetOr(p.content),
              input.emoji.GetOr(p.emoji), input.isPublic.GetOr(p.isPublic))
  }

  /** Storing the update object changes exactly the fields the input gives. */
  lemma UpdateDataApplies(p: PromptRow, data: map<string, Field>, input: UpdateInput)
    requires Describes(data, input)
    ensures ApplyUpdate(p, data) == ApplyInput(p, input)
  {
  }

  /** The rows `.update(...).eq("id", id).eq("user_id", user)` touches. */
  predicate Owned(p: PromptRow, userId: string, id: string) {
    p.id == id && p.userId == userId
  }

  function UpdateRows(rows: seq<PromptRow>, userId: string, id: string, input: UpdateInput): (r: seq<PromptRow>)
    ensures |r| == |rows|
    ensures forall i :: 0 <= i < |rows| ==> r[i] == if Owned(rows[i], userId, id) then ApplyInput(rows[i], input) else rows[i]
  {
    seq(|rows|, i requires 0 <= i < |rows| => if Owned(rows[i], userId, id) then ApplyInput(rows[i], input) else rows[i])
  }

  /** Rows of other prompts. */
  function Without<T>(rows: seq<Row<T>>, id: string): (r: seq<Row<T>>)
    ensures forall i :: 0 <= i < |r| ==> r[i].promptId != id
    decreases |rows|
  {
    if |rows| == 0 then []
    else if rows[0].promptId == id then Without(rows[1..], id)
    else [rows[0]] + Without(rows[1..], id)
  }

  /** New rows for one prompt, `items.map((x) => ({ prompt_id: id, ... }))`. */
  function RowsFor<T>(id: string, items: seq<T>): (r: seq<Row<T>>)
    ensures |r| == |items|
  {
    seq(|items|, i requires 0 <= i < |items| => Row(id, items[i]))
  }

  /** Delete the prompt's rows, then insert the new ones. */
  function Replace<T>(rows: seq<Row<T>>, id: string, items: seq<T>): seq<Row<T>> {
    Without(rows, id) + RowsFor(id, items)
  }

  lemma {:induction false} OfWithout<T>(rows: seq<Row<T>>, id: string, other: string)
    ensures Of(Without(rows, id), other) == if other == id then [] else Of(rows, other)
    decreases |rows|
  {
    if |rows| > 0 {
      OfWithout(rows[1..], id, other);
    }
  }

  lemma {:induction false} OfRowsFor<T>(id: string, items: seq<T>, other: string)
    ensures Of(RowsFor(id, items), other) == if other == id then items else []
    decreases |items|
  {
    if |items| > 0 {
      assert RowsFor(id, items)[1..] == RowsFor(id, items[1..]);
      OfRowsFor(id, items[1..], other);
    }
  }

  /** After a replacement the prompt holds exactly the new items, in order,
      and every other prompt keeps its own. */
  lemma ReplaceRelations<T>(rows: seq<Row<T>>, id: string, items: seq<T>, other: string)
    ensures Of(Replace(rows, id, items), id) == items
    ensures other != id ==> Of(Replace(rows, id, items), other) == Of(rows, other)
  {
    OfAppend(Without(rows, id), RowsFor(id, items), id);
    OfWithout(rows, id, id);
    OfRowsFor(id, items, id);
    OfAppend(Without(rows, id), RowsFor(id, items), other);
    OfWithout(rows, id, other);
    OfRowsFor(id, items, other);
  }

  /** Why a mutation did not happen: no signed-in user (thrown before the
      `try`), or no own prompt with that id for the backend's `single()`. */
  datatype Failure = NotAuthenticated | NoSuchPrompt

  function FailureMessage(f: Failure): string {
    match f
    case NotAuthenticated => "User must be authenticated"
    case NoSuchPrompt => "Failed to update prompt"
  }

  /** `updatePrompt` on the tables: the own row takes the given fields, and
      tags and variables are replaced wholesale when given and untouched when
      not. */
  function UpdatePrompt(t: Tables, user: Option<string>, id: string, input: UpdateInput): (r: Result<Tables, Failure>)
    ensures user.None? <==> r == Err(NotAuthenticated)
    ensures r.Ok? ==> |r.value.prompts| == |t.prompts|
  {
    if user.None? then Err(NotAuthenticated)
    else if !exists i :: 0 <= i < |t.prompts| && Owned(t.prompts[i], user.value, id) then Err(NoSuchPrompt)
    else Ok(Tables(
      UpdateRows(t.prompts, user.value, id, input),
      if input.tags.Some? then Replace(t.tags, id, input.tags.value) else t.tags,
      if input.variables.Some? then Replace(t.variables, id, input.variables.value) else t.variables))
  }

  /** After an update the prompt's tags are the given list, or the old ones
      when none was given; other prompts' tags are unchanged. */
  lemma UpdateTags(t: Tables, user: Option<string>, id: string, input: UpdateInput, other: string)
    requires UpdatePrompt(t, user, id, input).Ok?
    ensures Of(UpdatePrompt(t, user, id, input).value.tags, id) == input.tags.GetOr(Of(t.tags, id))
    ensures other != id ==> Of(UpdatePrompt(t, user, id, input).value.tags, other) == Of(t.tags, other)
  {
    if input.tags.Some? {
      ReplaceRelations(t.tags, id, input.tags.value, other);
    }
  }

  /** The same for variables. */
  lemma UpdateVariables(t: Tables, user: Option<string>, id: string, input: UpdateInput, other: string)
    requires UpdatePrompt(t, user, id, input).Ok?
    ensures Of(UpdatePrompt(t, user, id, input).value.variables, id) == input.variables.GetOr(Of(t.variables, id))
    ensures other != id ==> Of(UpdatePrompt(t, user, id, input).value.variables, other) == Of(t.variables, other)
  {
    if input.variables.Some? {
      ReplaceRelations(t.variables, id, input.variables.value, other);
    }
  }

  // ---------------------------------------------------------------------------
  // createPrompt
  // ---------------------------------------------------------------------------

  /** `CreatePromptInput`. */
  datatype CreateInput = CreateInput(
    title: string, content: string, emoji: Option<Option<string>>, isPublic: Option<bool>,
    tags: Option<seq<string>>, variables: Option<seq<Variable>>)

  /** `input.emoji || null`: a missing, null or empty emoji is stored as null. */
  function EmojiOrNull(e: Option<Option<string>>): (r: Option<string>)
    ensures r.Some? <==> e.Some? && e.value.Some? && e.value.value != ""
    ensures r.Some? ==> r == e.value
  {
    if e.Some? && e.value.Some? && e.value.value != "" then e.value else None
  }

  /** The inserted prompt row: `is_public` defaults to false. Variables are
      inserted as given, since `config || {}` and `order_index || 0` change
      nothing for a config object and an integer index. */
  function NewRow(id: string, userId: string, input: CreateInput): (r: PromptRow)
    ensures r.isPublic <==> input.isPublic == Some(true)
  {
    PromptRow(id, userId, input.title, input.content, EmojiOrNull(input.emoji), input.isPublic == Some(true))
  }

  /** `createPrompt` on the tables, with the id the backend assigns. The
      new row was updated last, so the fetch, newest first, lists it first;
      its tag and variable rows follow the existing ones. */
  function CreatePrompt(t: Tables, user: Option<string>, newId: string, input: CreateInput): (r: Result<Tables, Failure>)
    ensures user.None? <==> r.Err?
    ensures r.Ok? ==> r.value.prompts == [NewRow(newId, user.value, input)] + t.prompts
  {
    if user.None? then Err(NotAuthenticated)
    else Ok(Tables(
      [NewRow(newId, user.value, input)] + t.prompts,
      t.tags + RowsFor(newId, input.tags.GetOr([])),
      t.variables + RowsFor(newId, input.variables.GetOr([]))))
  }

  /** A created prompt with a fresh id reads back first in the next fetch,
      through the join, with exactly the tags and variables it was created
      with; the prompts fetched before follow it in their order. */
  lemma CreateReadsBack(t: Tables, userId: string, newId: string, input: CreateInput)
    requires forall i :: 0 <= i < |t.tags| ==> t.tags[i].promptId != newId
    requires forall i :: 0 <= i < |t.variables| ==> t.variables[i].promptId != newId
    ensures var t' := CreatePrompt(t, Some(userId), newId, input).value;
            Fetched(t')[0] == Prompt(NewRow(newId, userId, input), input.tags.GetOr([]), input.variables.GetOr([]))
            && multiset(Fetched(t')[0].tags) == multiset(input.tags.GetOr([]))
            && |Fetched(t')| == |t.prompts| + 1
            && forall i :: 0 <= i < |t.prompts| ==> Fetched(t')[i + 1].row == t.prompts[i]
  {
    var tags, vars := input.tags.GetOr([]), input.variables.GetOr([]);
    var t' := CreatePrompt(t, Some(userId), newId, input).value;
    AppendedFresh(t.tags, newId, tags);
    AppendedFresh(t.variables, newId, vars);
    assert Fetched(t')[0] == WithRelations(t'.prompts[0], t');
    forall i | 0 <= i < |t.prompts|
      ensures Fetched(t')[i + 1].row == t.prompts[i]
    {
      assert t'.prompts[i + 1] == t.prompts[i];
    }
  }

  /** Rows appended for an id no earlier row has are all that id has. */
  lemma AppendedFresh<T>(rows: seq<Row<T>>, id: string, items: seq<T>)
    requires forall i :: 0 <= i < |rows| ==> rows[i].promptId != id
    ensures Of(rows + RowsFor(id, items), id) == items
  {
    OfAppend(rows, RowsFor(id, items), id);
    OfAbsent(rows, id);
    OfRowsFor(id, items, id);
  }

  lemma {:induction false} OfAbsent<T>(rows: seq<Row<T>>, id: string)
    requires forall i :: 0 <= i < |rows| ==> rows[i].promptId != id
    ensures Of(rows, id) == []
    decreases |rows|
  {
    if |rows| > 0 {
      OfAbsent(rows[1..], id);
    }
  }

  // ---------------------------------------------------------------------------
  // searchPrompts
  // ---------------------------------------------------------------------------

  /** One element of a LIKE pattern. */
  datatype PatternItem = AnyRun | AnyChar | Literal(c: char)

  /** A LIKE pattern as PostgreSQL reads it: `%` stands for any run of
      characters, `_` for any one character, and a backslash makes the next
      character literal. The patterns built here end in `%`, so a lone
      backslash at the end never reaches the backend; it is read literally. */
  function Pattern(p: string): (r: seq<PatternItem>)
    ensures |r| <= |p|
    decreases |p|
  {
    if |p| == 0 then []
    else if p[0] == '%' then [AnyRun] + Pattern(p[1..])
    else if p[0] == '_' then [AnyChar] + Pattern(p[1..])
    else if p[0] == '\\' && |p| > 1 then [Literal(p[1])] + Pattern(p[2..])
    else [Literal(p[0])] + Pattern(p[1..])
  }

  /** `s LIKE pattern`. */
  predicate Like(s: string, pattern: seq<PatternItem>)
    decreases |s|, |pattern|
  {
    if |pattern| == 0 then |s| == 0
    else match pattern[0] {
      case AnyRun => Like(s, pattern[1..]) || (|s| > 0 && Like(s[1..], pattern))
      case AnyChar => |s| > 0 && Like(s[1..], pattern[1..])
      case Literal(c) => |s| > 0 && s[0] == c && Like(s[1..], pattern[1..])
    }
  }

  /** `s ILIKE pattern`: LIKE with both sides lower-cased. */
  predicate ILike(s: string, pattern: string) {
    Like(Lower(s), Pattern(Lower(pattern)))
  }

  /** No character with a meaning in a LIKE pattern. */
  predicate Plain(q: string) {
    forall i :: 0 <= i < |q| ==> q[i] != '%' && q[i] != '_' && q[i] != '\\'
  }

  /** The pattern that matches exactly the text. */
  function Literals(q: string): (r: seq<PatternItem>)
    ensures |r| == |q|
    ensures forall i :: 0 <= i < |q| ==> r[i] == Literal(q[i])
  {
    seq(|q|, i requires 0 <= i < |q| => Literal(q[i]))
  }

  /** A plain prefix of a pattern is read character for character. */
  lemma {:induction false} PatternPlainPrefix(a: string, b: string)
    requires Plain(a)
    ensures Pattern(a + b) == Literals(a) + Pattern(b)
    decreases |a|
  {
    if |a| == 0 {
      assert a + b == b;
    } else {
      PlainHead(a, b);
      PatternPlainPrefix(a[1..], b);
      LiteralsHead(a);
    }
  }

  /** The first character of a plain text is read as itself, and the rest
      is plain. */
  lemma PlainHead(a: string, b: string)
    requires Plain(a) && |a| > 0
    ensures Plain(a[1..]) && Pattern(a + b) == [Literal(a[0])] + Pattern(a[1..] + b)
  {
    assert (a + b)[1..] == a[1..] + b && (a + b)[0] == a[0];
    assert a[0] != '%' && a[0] != '_' && a[0] != '\\';
  }

  lemma LiteralsHead(a: string)
    requires |a| > 0
    ensures Literals(a) == [Literal(a[0])] + Literals(a[1..])
  {
  }

  /** A trailing `%` matches whatever is left. */
  lemma {:induction false} LikeAnyRun(s: string)
    ensures Like(s, [AnyRun])
    decreases |s|
  {
    if |s| > 0 {
      LikeAnyRun(s[1..]);
    }
  }

  /** `q%` matches exactly the strings that start with q. */
  lemma {:induction false} LikePrefix(s: string, q: string)
    ensures Like(s, Literals(q) + [AnyRun]) <==> StartsWith(s, q)
    decreases |q|
  {
    if |q| == 0 {
      assert Literals(q) + [AnyRun] == [AnyRun];
      LikeAnyRun(s);
    } else {
      assert (Literals(q) + [AnyRun])[1..] == Literals(q[1..]) + [AnyRun];
      if |s| > 0 {
        LikePrefix(s[1..], q[1..]);
        if |q| <= |s| {
          assert s[..|q|] == [s[0]] + s[1..][..|q| - 1];
          assert q == [q[0]] + q[1..];
        }
      }
    }
  }

  /** A leading `%` lets the rest match any suffix. */
  lemma {:induction false} LikeLeadingRun(s: string, rest: seq<PatternItem>)
    ensures Like(s, [AnyRun] + rest) <==> exists k :: 0 <= k <= |s| && Like(s[k..], rest)
    decreases |s|
  {
    assert ([AnyRun] + rest)[1..] == rest;
    assert s[0..] == s;
    if |s| > 0 {
      LikeLeadingRun(s[1..], rest);
      forall k | 1 <= k <= |s| ensures s[1..][k - 1..] == s[k..] {}
      if exists k :: 0 <= k <= |s| && Like(s[k..], rest) {
        var k :| 0 <= k <= |s| && Like(s[k..], rest);
        if k > 0 {
          assert Like(s[1..][k - 1..], rest);
        }
      }
    }
  }

  /** `%q%` matches exactly the strings that contain q. */
  lemma LikeContains(s: string, q: string)
    ensures Like(s, [AnyRun] + (Literals(q) + [AnyRun])) <==> Contains(s, q)
  {
    LikeLeadingRun(s, Literals(q) + [AnyRun]);
    forall k | 0 <= k <= |s|
      ensures Like(s[k..], Literals(q) + [AnyRun]) <==> StartsWith(s[k..], q)
    {
      LikePrefix(s[k..], q);
    }
  }

  /** `tag_path.eq.F` or `tag_path.like.F/%`: the tag itself, or a tag the
      pattern `F/%` matches. */
  predicate TagMatches(path: string, filter: string) {
    path == filter || Like(path, Pattern(filter + "/%"))
  }

  /** For a filter without `%`, `_` or backslash: the tag itself or any tag
      below it. */
  lemma TagMatchesPlain(path: string, filter: string)
    requires Plain(filter)
    ensures TagMatches(path, filter) <==> path == filter || StartsWith(path, filter + "/")
  {
    var f := filter + "/";
    assert Plain(f) by {
      forall i | 0 <= i < |f| ensures f[i] != '%' && f[i] != '_' && f[i] != '\\' {
        if i < |filter| { assert f[i] == filter[i]; }
      }
    }
    assert filter + "/%" == f + "%";
    PatternPlainPrefix(f, "%");
    assert Pattern("%") == [AnyRun];
    LikePrefix(path, f);
  }

  /** `_` in a tag filter stands for any character. */
  lemma TagFilterWildcard()
    ensures TagMatches("aXb/c", "a_b") && !("aXb/c" == "a_b" || StartsWith("aXb/c", "a_b/"))
  {
    var f := "a_b/%";
    assert "a_b" + "/%" == f;
    assert f[1..] == "_b/%" && f[1..][1..] == "b/%" && f[1..][1..][1..] == "/%" && f[1..][1..][1..][1..] == "%";
    assert Pattern("%") == [AnyRun];
    var p := Pattern(f);
    assert p == [Literal('a'), AnyChar, Literal('b'), Literal('/'), AnyRun];
    LikeAnyRun("c");
    assert [Literal('/'), AnyRun][1..] == [AnyRun];
    assert Like("/c", [Literal('/'), AnyRun]);
    assert Like("b/c", [Literal('b'), Literal('/'), AnyRun]);
    assert Like("Xb/c", [AnyChar, Literal('b'), Literal('/'), AnyRun]);
    assert Like("aXb/c", p);
    assert "aXb/c"[..4][1] != "a_b/"[1];
  }

  /** The characters that end or group a condition inside `.or(...)`. */
  predicate BreaksOr(s: string) {
    exists i :: 0 <= i < |s| && (s[i] == ',' || s[i] == '(' || s[i] == ')')
  }

  /** The prompt ids the tag query returns, in row order. */
  function TaggedIds(tags: seq<Row<string>>, filter: string): (ids: seq<string>)
    ensures forall id :: id in ids <==> exists i :: 0 <= i < |tags| && tags[i].promptId == id && TagMatches(tags[i].item, filter)
    decreases |tags|
  {
    if |tags| == 0 then []
    else
      var rest := TaggedIds(tags[1..], filter);
      assert forall i :: 0 < i < |tags| ==> tags[i] == tags[1..][i - 1];
      if TagMatches(tags[0].item, filter) then [tags[0].promptId] + rest else rest
  }

  /** The text condition, `title.ilike.%q%` or `content.ilike.%q%` with q
      the lower-cased query; an empty query adds no condition. */
  predicate TextMatches(p: PromptRow, query: string) {
    var q := "%" + Lower(query) + "%";
    query == "" || ILike(p.title, q) || ILike(p.content, q)
  }

  /** For a query without `%`, `_` or backslash the condition is a
      case-insensitive substring test. */
  lemma TextMatchesPlain(p: PromptRow, query: string)
    requires Plain(query)
    ensures TextMatches(p, query) <==>
              query == "" || Contains(Lower(p.title), Lower(query)) || Contains(Lower(p.content), Lower(query))
  {
    var lq := Lower(query);
    assert Plain(lq) by {
      forall i | 0 <= i < |lq| ensures lq[i] != '%' && lq[i] != '_' && lq[i] != '\\' {
        assert lq[i] == LowerChar(query[i]);
      }
    }
    var q := "%" + lq + "%";
    assert Lower(q) == q by {
      forall i | 0 <= i < |q| ensures Lower(q)[i] == q[i] {
        if 0 < i < |q| - 1 { assert q[i] == lq[i - 1]; }
      }
    }
    assert q[1..] == lq + "%";
    PatternPlainPrefix(lq, "%");
    assert Pattern("%") == [AnyRun];
    assert Pattern(q) == [AnyRun] + (Literals(lq) + [AnyRun]);
    LikeContains(Lower(p.title), lq);
    LikeContains(Lower(p.content), lq);
  }

  /** `_` in the query stands for any character: "a_c" finds a prompt
      titled "abc", which does not contain it. */
  lemma TextQueryWildcard(p: PromptRow)
    requires p.title == "abc"
    ensures TextMatches(p, "a_c") && !Contains(Lower(p.title), "a_c")
  {
    var t := Lower(p.title);
    assert t == "abc";
    assert "%" + Lower("a_c") + "%" == "%a_c%";
    assert Lower("%a_c%") == "%a_c%";
    var pat := Pattern("%a_c%");
    assert pat == [AnyRun, Literal('a'), AnyChar, Literal('c'), AnyRun];
    WildcardMatches();
    assert Like(t, pat);
    NoLiteralUnderscore();
  }

  /** "abc" LIKE "%a_c%", one pattern element at a time. */
  lemma WildcardMatches()
    ensures Like("abc", [AnyRun, Literal('a'), AnyChar, Literal('c'), AnyRun])
  {
    LikeAnyRun("");
    var p3: seq<PatternItem> := [Literal('c'), AnyRun];
    assert p3[1..] == [AnyRun] && "c"[1..] == "";
    assert Like("c", p3);
    var p2: seq<PatternItem> := [AnyChar] + p3;
    assert p2[1..] == p3 && "bc"[1..] == "c";
    assert Like("bc", p2);
    var p1: seq<PatternItem> := [Literal('a')] + p2;
    assert p1[1..] == p2 && "abc"[1..] == "bc";
    assert Like("abc", p1);
    var p0: seq<PatternItem> := [AnyRun] + p1;
    assert p0[1..] == p1;
    assert p0 == [AnyRun, Literal('a'), AnyChar, Literal('c'), AnyRun];
  }

  /** "abc" does not contain the text "a_c". */
  lemma NoLiteralUnderscore()
    ensures !Contains("abc", "a_c")
  {
    forall i | 0 <= i <= |"abc"| - |"a_c"|
      ensures !StartsWith("abc"[i..], "a_c")
    {
      assert i == 0 && "abc"[0..][1] == 'b';
    }
  }

  /** The rows the prompt query selects, in table order. */
  function Select(rows: seq<PromptRow>, ids: Option<seq<string>>, query: string): (r: seq<PromptRow>)
    ensures forall p :: p in r <==> p in rows && (ids.None? || p.id in ids.value) && TextMatches(p, query)
    decreases |rows|
  {
    if |rows| == 0 then []
    else
      var rest := Select(rows[1..], ids, query);
      assert rows == [rows[0]] + rows[1..];
      if (ids.None? || rows[0].id in ids.value) && TextMatches(rows[0], query) then [rows[0]] + rest else rest
  }

  /** `searchPrompts`, with a failure of the main prompt query (caught,
      giving no prompts) as the parameter `failed`. An empty
      tag filter is no filter. A comma or parenthesis in the filter or the
      query breaks the `.or(...)` condition it is spliced into: the tag
      query's error is ignored and leaves no ids, the text query's error is
      caught; either way the search finds nothing. */
  function SearchPrompts(t: Tables, user: Option<string>, query: string, tagFilter: string, failed: bool)
    : (r: seq<Prompt>)
    ensures user.None? || failed ==> r == []
    ensures BreaksOr(tagFilter) || BreaksOr(query) ==> r == []
    ensures tagFilter != "" && |TaggedIds(t.tags, tagFilter)| == 0 ==> r == []
  {
    if user.None? || failed || BreaksOr(tagFilter) || BreaksOr(query) then []
    else
      var ids := if tagFilter == "" then None else Some(TaggedIds(t.tags, tagFilter));
      if ids.Some? && |ids.value| == 0 then []
      else JoinRows(Select(t.prompts, ids, query), t)
  }

  /** A row is in the join exactly when it was selected. */
  lemma JoinHas(rows: seq<PromptRow>, t: Tables, p: PromptRow)
    ensures (exists i :: 0 <= i < |JoinRows(rows, t)| && JoinRows(rows, t)[i].row == p) <==> p in rows
  {
    if p in rows {
      var i :| 0 <= i < |rows| && rows[i] == p;
      assert JoinRows(rows, t)[i].row == p;
    }
  }

  /** Some tag row of prompt `id` matches the filter. */
  predicate Tagged(tags: seq<Row<string>>, id: string, filter: string) {
    exists k :: 0 <= k < |tags| && tags[k].promptId == id && TagMatches(tags[k].item, filter)
  }

  lemma TaggedIn(tags: seq<Row<string>>, id: string, filter: string)
    ensures Tagged(tags, id, filter) <==> id in TaggedIds(tags, filter)
  {
  }

  /** A prompt row is found exactly when it passes the text condition and,
      under a tag filter, carries the tag or a tag below it. */
  lemma SearchFinds(t: Tables, userId: string, query: string, tagFilter: string, p: PromptRow)
    ensures (exists i :: 0 <= i < |SearchPrompts(t, Some(userId), query, tagFilter, false)|
               && SearchPrompts(t, Some(userId), query, tagFilter, false)[i].row == p)
        <==> !BreaksOr(tagFilter) && !BreaksOr(query)
             && p in t.prompts && TextMatches(p, query) && (tagFilter == "" || Tagged(t.tags, p.id, tagFilter))
  {
    var ids := if tagFilter == "" then None else Some(TaggedIds(t.tags, tagFilter));
    if BreaksOr(tagFilter) || BreaksOr(query) {
    } else if ids.Some? && |ids.value| == 0 {
      TaggedIn(t.tags, p.id, tagFilter);
      assert p.id !in ids.value;
    } else {
      var rows := Select(t.prompts, ids, query);
      assert SearchPrompts(t, Some(userId), query, tagFilter, false) == JoinRows(rows, t);
      JoinHas(rows, t, p);
      TaggedIn(t.tags, p.id, tagFilter);
    }
  }
}
