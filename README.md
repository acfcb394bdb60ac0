# itools: a Dafny model of the extension's core logic

itools is a browser extension (new-tab page, popup and tab manager) written in
TypeScript and React. Its core is a prompt library with templates. A prompt's
text holds `{{name}}` placeholders. Each placeholder is declared as a typed
variable (string, number, enum, or a reference to another prompt). At use time
the values are checked and substituted, and `prompt` variables are expanded
recursively into other prompts' text, down to a fixed depth. Around this
engine sit a CSV bookmark importer and a set of small hooks and components
with rules of their own: the icon fallbacks of an app tile, the extension
manager, sign-in and sign-up, the bookmarks bar, tab previews with a
five-minute screenshot cache, and the page settings.

This project models that logic in Dafny and proves what it promises. One
module per source file:

- `PromptVariables`: the template engine of `hooks/usePromptVariables.ts`. It covers the placeholder extractor, the declaration check, substitution, the depth-bounded resolver and the value validator.
- `PromptManager`: the top-level resolve flow and the value map of `components/PromptManager.tsx`.
- `PromptEditor`: the editor state of `components/PromptEditor.tsx`. It covers auto-detection of variables, the tag and variable lists, enum options and the save gate.
- `VariableInput`: the value gate, the number display, the slider rule and the prompt picker of `components/VariableInput.tsx`.
- `Prompts`: the table join, the partial update, the wholesale replacement of relations, the create defaults and the search of `hooks/usePrompts.ts`. The database tables are in-memory lists.
- `BookmarkParsers`: the CSV importer of `lib/bookmarkParsers.ts`. The node graph is a table keyed by id.
- `AppIcon`: the emoji classifier, the favicon source list and the fallback level of `components/AppIcon.tsx`.
- `Extensions` and `ExtensionManager`: the management list, the stand-in toggle and uninstall, and the filtered and sorted view.
- `Auth` and `AuthForm`: the session state machine, the backend message rewriting and the form's validators and submit sequence.
- `Bookmarks`: the bookmarks-bar selection and the tree copy of `hooks/useBookmarks.ts`.
- `TabScreenshots`: cache validity, the order of the capture checks and the preview pass of `hooks/useTabScreenshots.ts`.
- `Settings`: the defaults, the merge on load and `updateSetting` of `hooks/useSettings.ts`.
- `Text` and `Wrappers`: the JavaScript string operations the code relies on (trim, split, lower-case, global replace, number text), and Option/Result.

The code's form is kept in the model:

- State that a hook or component updates in place is a class. Its handlers are methods whose postconditions give the whole new state.
- A loop in the source is a method with a loop. The method is proved equal to a specification function, and that function's properties are proved as lemmas.
- Pure expression code is a function.
- Browser and backend calls are not executed. Their answers are parameters: a storage value, a `getTree` result, a capture, a backend `Answer`.

## Model

| member | source | states |
|---|---|---|
| PromptVariables.Lookup | hooks/usePromptVariables.ts:79 | `values[key]` is defined exactly when some entry has the key, and is that entry's value |
| PromptVariables.MatchAtOccurs | hooks/usePromptVariables.ts:7 | `/{{(\w+)}}/` tried at a position matches with capture `w` exactly when the placeholder `{{w}}` stands there |
| PromptVariables.NoOverlap | hooks/usePromptVariables.ts:7-11 | no second placeholder starts inside a placeholder, so the global scan cannot skip one by resuming after a match |
| PromptVariables.MatchesSound | hooks/usePromptVariables.ts:8-13 | every name the global scan captures is the name of a placeholder in the text |
| PromptVariables.MatchesComplete | hooks/usePromptVariables.ts:8-13 | every placeholder at or after the scan position is captured |
| PromptVariables.Dedup | hooks/usePromptVariables.ts:9-15 | the `Set` read back holds exactly the scanned names, each once |
| PromptVariables.DedupSnoc | hooks/usePromptVariables.ts:12 | adding a name to the insertion-ordered set appends it exactly when it is new |
| PromptVariables.ParseVariablesFromContent | hooks/usePromptVariables.ts:6-16 | the loop over the matches returns the template's distinct placeholder names in first-occurrence order |
| PromptVariables.PlaceholdersExact | hooks/usePromptVariables.ts:6-16 | a name is extracted exactly when it is a `\w+` word and `{{name}}` occurs in the text |
| PromptVariables.TripleBraces | hooks/usePromptVariables.ts:7 | the scan is not brace-balanced: `{{{x}}}` yields `x` |
| PromptVariables.Names | hooks/usePromptVariables.ts:26 | the declared names, one per variable, in order |
| PromptVariables.Undeclared | hooks/usePromptVariables.ts:27 | the filter keeps exactly the names that are not declared |
| PromptVariables.UndeclaredDistinct | hooks/usePromptVariables.ts:27 | filtering distinct names keeps them distinct |
| PromptVariables.ValidateVariables | hooks/usePromptVariables.ts:21-33 | `missing` holds exactly the undeclared placeholder names, without repeats; `valid` holds exactly when it is empty, i.e. when every placeholder is declared |
| PromptVariables.NamePattern | hooks/usePromptVariables.ts:45 | `new RegExp("{{name}}")` matches the placeholder for a name that is not all digits, and n open braces then `}` for an all-digit name n |
| PromptVariables.SubstituteVariables | hooks/usePromptVariables.ts:38-50 | the loop applies the entries one after another, each global replace on the text the previous ones left |
| PromptVariables.ReplaceAtPlaceholder | hooks/usePromptVariables.ts:45-46 | a global replace of `{{k}}` starting on `{{w}}` replaces it when `w` is `k` and steps over it intact otherwise |
| PromptVariables.ReplaceAroundPlaceholder | hooks/usePromptVariables.ts:45-46 | a placeholder splits the global replace: the text on each side is replaced on its own |
| PromptVariables.SubstituteKeepsUnknown | hooks/usePromptVariables.ts:38-50 | for keys that are words with a non-digit, a placeholder whose name is no key survives substitution verbatim |
| PromptVariables.SubstituteNoMatches | hooks/usePromptVariables.ts:38-50 | text in which no key's expression matches comes back unchanged |
| PromptVariables.SubstituteReplacesKey | hooks/usePromptVariables.ts:44-47 | the placeholder of a key with a non-digit is replaced by `String(value)`, and the text on each side is substituted on its own |
| PromptVariables.Find | hooks/usePromptVariables.ts:66 | `find` returns a prompt with the id, and nothing exactly when no prompt has it |
| PromptVariables.DigitPlaceholderKept | hooks/usePromptVariables.ts:44-47 | the placeholder `{{n}}` of an all-digit key n other than 0 is left in place by that key's replace |
| PromptVariables.DigitKeyExample | hooks/usePromptVariables.ts:44-47 | with the key `1`, the text `{}{{1}}` becomes `x{{1}}`: the braces pair is replaced, the placeholder kept |
| PromptVariables.ResolvePromptVariable | hooks/usePromptVariables.ts:56-115 | the recursive method with its loop and caught nested errors computes the reference resolution `Resolve` |
| PromptVariables.ResolveDepthFirst | hooks/usePromptVariables.ts:62-64 | past depth 3 the call fails with the depth error, before the lookup |
| PromptVariables.ResolveFailsOnlyAtRoot | hooks/usePromptVariables.ts:66-69 | within the bound a call fails exactly when the id names no prompt, and then with the not-found error, because nested failures are caught |
| PromptVariables.ResolveNoVariables | hooks/usePromptVariables.ts:74-114 | a prompt without variables resolves to its content with the whole map substituted |
| PromptVariables.ExpandFallsBack | hooks/usePromptVariables.ts:93-99 | a `prompt` variable whose nested prompt fails has every match of its name's expression replaced by its value's text |
| PromptVariables.NestedResolves | hooks/usePromptVariables.ts:78-92 | one level of nesting: the matches of the name's expression are replaced by the nested prompt's substituted content, then the map is substituted over the result |
| PromptVariables.ValidateVariableValue | hooks/usePromptVariables.ts:120-172 | accepts exactly the values the variable's type admits, with an error exactly when it rejects |
| PromptVariables.NumberMessages | hooks/usePromptVariables.ts:131-148 | number checks in order: not a number, then below the minimum, then above the maximum, each with its message |
| PromptVariables.NotANumberRefused | hooks/usePromptVariables.ts:132-135 | text that does not start with a number is refused as not a number |
| PromptVariables.EmptyEnumOptions | hooks/usePromptVariables.ts:150-159 | an empty option list is refused with the "one of" message and no options listed |
| PromptVariables.NumberExamples | hooks/usePromptVariables.ts:136-147 | with bounds 0..10: 5 passes, -1 and 11 get the minimum and maximum messages |
| PromptVariables.EnumExamples | hooks/usePromptVariables.ts:154-159 | with options a, b: "a" passes, "c" gets "Value must be one of: a, b" |
| Prompts.OfMember | hooks/usePrompts.ts:100-105 | an item is among a prompt's relations exactly when a row pairs it with the prompt's id |
| Prompts.OfAppend | hooks/usePrompts.ts:100-105 | the filter distributes over appended tables, keeping row order |
| Prompts.JoinRows | hooks/usePrompts.ts:99-112 | the join keeps the prompt rows, one per row, in order |
| Prompts.JoinRelations | hooks/usePrompts.ts:99-112 | each joined prompt carries exactly the tag paths and variables whose rows have its id |
| Prompts.Message | hooks/usePrompts.ts:117 | the thrown error's message, or the fallback text |
| Prompts.PromptsState.FetchPrompts | hooks/usePrompts.ts:54-121 | no user: empty list and no query; success: the join, error cleared; failure: list kept and the message recorded; loading ends in every case |
| Prompts.BuildUpdateData | hooks/usePrompts.ts:202-206 | `updateData` holds exactly the given fields among title, content, emoji and is_public, with their values |
| Prompts.UpdateDataApplies | hooks/usePrompts.ts:202-214 | applying the update object to a row changes exactly the given fields |
| Prompts.UpdateRows | hooks/usePrompts.ts:208-214 | only the row with that id and the user's id is updated |
| Prompts.OfWithout | hooks/usePrompts.ts:221 | deleting a prompt's rows leaves it none and keeps every other prompt's rows |
| Prompts.OfRowsFor | hooks/usePrompts.ts:225-228 | the inserted rows belong to the prompt alone, in the given order |
| Prompts.ReplaceRelations | hooks/usePrompts.ts:219-259 | after delete-and-insert the prompt holds exactly the new items and other prompts keep theirs |
| Prompts.UpdatePrompt | hooks/usePrompts.ts:193-216 | with no user it fails before anything, otherwise the prompt table keeps its size |
| Prompts.UpdateTags | hooks/usePrompts.ts:219-236 | given tags replace the prompt's tags wholesale, absent tags leave them, other prompts are untouched |
| Prompts.UpdateVariables | hooks/usePrompts.ts:239-259 | the same for variables |
| Prompts.EmojiOrNull | hooks/usePrompts.ts:142 | a missing, null or empty emoji is stored as null, any other kept |
| Prompts.NewRow | hooks/usePrompts.ts:136-146 | the new row is public exactly when `is_public` was given as true |
| Prompts.CreatePrompt | hooks/usePrompts.ts:127-181 | with no user it fails; otherwise the new row, the most recently updated, heads the prompts table |
| Prompts.CreateReadsBack | hooks/usePrompts.ts:127-183 | a created prompt with a fresh id reads back first in the next fetch, newest first, with exactly the tags and variables given (the tags also as a multiset), followed by the earlier prompts in order |
| Prompts.PatternPlainPrefix | hooks/usePrompts.ts:310 | a prefix without `%`, `_` or backslash is read as literal characters |
| Prompts.LikeAnyRun | hooks/usePrompts.ts:310 | a lone `%` matches any string |
| Prompts.LikePrefix | hooks/usePrompts.ts:310 | a literal text followed by `%` matches exactly the strings that start with it |
| Prompts.LikeLeadingRun | hooks/usePrompts.ts:329 | a leading `%` matches exactly when the rest of the pattern matches some suffix |
| Prompts.LikeContains | hooks/usePrompts.ts:329 | `%q%` with a literal q matches exactly the strings containing q |
| Prompts.TagMatchesPlain | hooks/usePrompts.ts:310 | for a filter without LIKE metacharacters a tag matches exactly when it is the filter or lies under `filter/` |
| Prompts.TagFilterWildcard | hooks/usePrompts.ts:310 | `_` in a tag filter matches any character: filter `a_b` selects tag `aXb/c`, which is not under `a_b/` |
| Prompts.TextMatchesPlain | hooks/usePrompts.ts:326-331 | for a query without LIKE metacharacters the text condition is a case-insensitive substring test of title or content |
| Prompts.TextQueryWildcard | hooks/usePrompts.ts:326-331 | `_` in the query matches any character: `a_c` finds the title `abc`, which does not contain it |
| Prompts.TaggedIds | hooks/usePrompts.ts:306-312 | the ids of the rows whose tag equals the filter or matches the LIKE pattern `filter/%` |
| Prompts.TaggedIn | hooks/usePrompts.ts:306-312 | a prompt has a matching tag exactly when its id is among the returned ids |
| Prompts.Select | hooks/usePrompts.ts:319-335 | the selected rows are exactly those in the id list, when there is one, whose title or content matches `%query%` under ILIKE |
| Prompts.SearchPrompts | hooks/usePrompts.ts:297-373 | no user, a failure of the main query, a comma or parenthesis in the query or the filter, or a tag filter that matches nothing gives the empty list |
| Prompts.JoinHas | hooks/usePrompts.ts:356-367 | the join holds a prompt exactly when its row was selected |
| Prompts.SearchFinds | hooks/usePrompts.ts:297-369 | a prompt is found exactly when neither query nor filter holds a comma or parenthesis, it is in the table, matches the text, and has a matching tag when a filter is given |
| PromptManager.Put | components/PromptManager.tsx:166-171 | after `{...variableValues, [name]: value}` the key reads back the new value |
| PromptManager.PutOthers | components/PromptManager.tsx:166-171 | every other key reads back what it held |
| PromptManager.PutKeys | components/PromptManager.tsx:166-171 | an existing key keeps its place in entry order, a new key is appended |
| PromptManager.PutDistinct | components/PromptManager.tsx:166-171 | keys stay distinct |
| PromptManager.PromptManager.constructor | components/PromptManager.tsx:29-35 | nothing in use, an empty value map, no resolved text |
| PromptManager.PromptManager.HandleUse | components/PromptManager.tsx:69-73 | selects the prompt and resets the value map and the resolved text |
| PromptManager.PromptManager.SetVariableValue | components/PromptManager.tsx:166-171 | only the value map changes, by the key update |
| PromptManager.PromptManager.HandleResolvePrompt | components/PromptManager.tsx:87-122 | nothing without a prompt in use; otherwise the loop over the variables and the final substitution give the stored text `TopResolve` |
| PromptManager.TopStepExpands | components/PromptManager.tsx:95-108 | a truthy `prompt` value naming an existing prompt always resolves at depth 0, and the matches of its name's expression are replaced by the result |
| PromptManager.TopLoopSkips | components/PromptManager.tsx:94-114 | variables that do not expand leave the text alone |
| PromptManager.TopResolvePlain | components/PromptManager.tsx:91-118 | when no variable expands, the result is the content with the map substituted, so an id naming no prompt ends up as raw text |
| PromptEditor.StringVariable | components/PromptEditor.tsx:79-84 | a detected name is declared as a string variable with an empty config at the given position |
| PromptEditor.AppendDetected | components/PromptEditor.tsx:70-88 | auto-detect only appends: the variables there before stay, in order |
| PromptEditor.AppendDetectedDeclares | components/PromptEditor.tsx:70-88 | after auto-detect every detected name is declared |
| PromptEditor.AppendDetectedNumbered | components/PromptEditor.tsx:83 | appending at `prev.length` keeps every variable's `order_index` equal to its position |
| PromptEditor.AutoDetectValidates | components/PromptEditor.tsx:70-88 | after auto-detect the content validates: no placeholder is left undeclared |
| PromptEditor.PromptEditor.AutoDetect | components/PromptEditor.tsx:70-88 | the effect replaces the variables by the appended list and changes nothing else |
| PromptEditor.PromptEditor.AddTag | components/PromptEditor.tsx:90-96 | the trimmed input is appended and the input cleared exactly when it is non-empty and new; a list without repeats keeps none; every other field is unchanged |
| PromptEditor.RemoveAll | components/PromptEditor.tsx:98-100 | the filter drops exactly the tags equal to the argument |
| PromptEditor.RemoveAllDistinct | components/PromptEditor.tsx:98-100 | removing keeps distinct tags distinct |
| PromptEditor.RemoveAbsent | components/PromptEditor.tsx:98-100 | removing an absent tag changes nothing |
| PromptEditor.PromptEditor.RemoveTag | components/PromptEditor.tsx:98-100 | the tags become the filtered list; a list without repeats keeps none; every other field is unchanged |
| PromptEditor.PromptEditor.AddVariable | components/PromptEditor.tsx:102-112 | appends `var{n+1}` of type string with `order_index` n, n the old length; every other field is unchanged |
| PromptEditor.Merge | components/PromptEditor.tsx:119 | `{ ...v, ...updates }`: each given field replaces the old one, the others stay |
| PromptEditor.TypeChangeResetsConfig | components/PromptEditor.tsx:330-334 | a type change resets the config and keeps name and position |
| PromptEditor.PromptEditor.UpdateVariable | components/PromptEditor.tsx:114-121 | only the variable at the index is merged, the list keeps its length; every other field is unchanged |
| PromptEditor.RemoveAt | components/PromptEditor.tsx:123-125 | drops the index when it is in range, keeping the rest in order; otherwise nothing changes |
| PromptEditor.PromptEditor.RemoveVariable | components/PromptEditor.tsx:123-125 | the variables become the list without that index; every other field is unchanged |
| PromptEditor.ParseEnumOptions | components/PromptEditor.tsx:398-401 | every option is non-empty, comma-free and trimmed |
| PromptEditor.CleanOptionsClean | components/PromptEditor.tsx:399-401 | trimming comma-free pieces and dropping empty ones gives clean options |
| PromptEditor.ParseJoined | components/PromptEditor.tsx:389-401 | parsing the field's `join(", ")` text gives back the clean options |
| PromptEditor.EnumOptionsRoundTrip | components/PromptEditor.tsx:389-401 | displaying parsed options and parsing the text again gives the same options |
| PromptEditor.Renumber | components/PromptEditor.tsx:158-161 | each variable keeps its fields and takes its position as `order_index` |
| PromptEditor.SaveAccepts | components/PromptEditor.tsx:127-147 | saving goes ahead exactly when title and content are not blank and every placeholder is declared |
| PromptEditor.SaveRejections | components/PromptEditor.tsx:130-146 | checks in order: title, content, missing definitions, each with its message |
| PromptEditor.SaveSubmits | components/PromptEditor.tsx:152-162 | the submitted record has trimmed title and content, `emoji \|\| null`, the flag, the tags, and the variables renumbered |
| PromptEditor.SaveAfterAutoDetect | components/PromptEditor.tsx:70-147 | after auto-detect, a non-blank title and content always pass the save checks |
| PromptEditor.PromptEditor.HandleSave | components/PromptEditor.tsx:127-170 | a rejection sets the message and sends nothing; an acceptance submits the record, records the save failure if any, and ends saving; the form fields are unchanged |
| PromptEditor.PromptEditor.Submit | components/PromptEditor.tsx:128-169 | once the checks have decided, a rejection sets its message and sends nothing with saving untouched; an acceptance hands the record on, leaves the save failure (if any) as the error and ends with saving false; the form fields are unchanged |
| PromptEditor.PromptEditor.constructor | components/PromptEditor.tsx:48-67 | the fields start from the prompt (its tag list as given, repeats included), or empty; no error, not saving |
| VariableInput.VariableInput.constructor | components/VariableInput.tsx:20-21 | the local error starts as the given error, the search empty, nothing emitted |
| VariableInput.VariableInput.SyncError | components/VariableInput.tsx:23-25 | the effect copies the parent's error into the local error and changes nothing else |
| VariableInput.VariableInput.HandleChange | components/VariableInput.tsx:27-35 | an admitted value clears the local error and is passed to `onChange`; a refused one shows the validator's message and is not passed on |
| VariableInput.VariableInput.SetSearchQuery | components/VariableInput.tsx:149 | only the search text changes |
| VariableInput.NumValue | components/VariableInput.tsx:58-63 | no value shows the minimum or 0; a number shows itself; NaN only when the value is NaN itself |
| VariableInput.NumValueOfText | components/VariableInput.tsx:61 | the text of a whole number shows that number |
| VariableInput.NumValueOfNonNumber | components/VariableInput.tsx:61 | text that does not start with a number shows 0 (`parseFloat(value) \|\| 0`) |
| VariableInput.NumberBoxValue | components/VariableInput.tsx:93-97 | an emptied box gives 0; unreadable text gives NaN |
| VariableInput.ClearedBox | components/VariableInput.tsx:93-97 | emptying the box is accepted exactly when 0 lies within the bounds |
| VariableInput.UnreadableBoxRefused | components/VariableInput.tsx:93-97 | unreadable text in the box is refused as not a number |
| VariableInput.Render | components/VariableInput.tsx:37-174 | nothing is rendered exactly for an unknown type; the slider shows exactly when both bounds are set; an enum's select lists its options or none |
| VariableInput.FilterKeeps | components/VariableInput.tsx:134-139 | the picker lists exactly the prompts whose title or content contains the search, case-insensitively, each as often as it occurs in the list |
| VariableInput.FilterSplits | components/VariableInput.tsx:134-139 | the filter keeps the list order: filtering two joined lists gives the first list's matches, then the second's |
| VariableInput.EmptySearchKeepsAll | components/VariableInput.tsx:134-139 | an empty search lists every prompt |
| VariableInput.ListSize | components/VariableInput.tsx:157 | the list shows one more row than there are prompts, at most five |
| AppIcon.FirstMatch | components/AppIcon.tsx:12-34 | the result is the emoji of one of the rules, or the globe |
| AppIcon.FirstMatchIsFirst | components/AppIcon.tsx:16-33 | the first rule that fires decides; when none fires the globe is shown |
| AppIcon.GoogleSubdomains | components/AppIcon.tsx:16-22 | a `mail.google.com` or `calendar.google.com` url that the GitHub rule does not catch gets the magnifier, because the Google rule comes first |
| AppIcon.GoogleFires | components/AppIcon.tsx:17 | any url containing `google.com` fires the Google rule |
| AppIcon.AiTitle | components/AppIcon.tsx:21 | a lower-cased title containing "ai" that none of the five earlier rules caught gets the robot |
| AppIcon.Services | components/AppIcon.tsx:86-97 | exactly ten fixed sources, none of them the discovered icon |
| AppIcon.GetFaviconUrls | components/AppIcon.tsx:83-108 | an unparsable url gives no sources; otherwise the ten sources in order, with a non-empty discovered icon put in front |
| AppIcon.CurrentUrl | components/AppIcon.tsx:111 | the address of the source at the current level, or "" when the level is not an index |
| AppIcon.ErrorsStepThrough | components/AppIcon.tsx:113-119 | after k load errors the level is k while sources remain, and -1 (the emoji) once they are used up |
| AppIcon.MiniStaysInRange | components/AppIcon.tsx:68-72 | the mini icon stops at the last source: its level stays an index (or 0) and never becomes -1 |
| AppIcon.IconFallback.constructor | components/AppIcon.tsx:78 | the fallback level starts at 0 |
| AppIcon.IconFallback.HandleIconError | components/AppIcon.tsx:113-119 | the level moves to the next source, or to -1 from the last one, which shows the emoji |
| BookmarkParsers.FieldsFrom | lib/bookmarkParsers.ts:224-246 | the scan from any position always ends with at least one more field than it has collected |
| BookmarkParsers.Fields | lib/bookmarkParsers.ts:219-249 | a line always gives at least one field, never an empty list |
| BookmarkParsers.ParseCSVLine | lib/bookmarkParsers.ts:219-249 | the character loop, with its `current` and `inQuotes` updates and its index skip, gives the fields of the specification function |
| BookmarkParsers.NoQuotes | lib/bookmarkParsers.ts:236-241 | a line without `"` splits exactly as `line.split(",")` |
| BookmarkParsers.EscapedQuote | lib/bookmarkParsers.ts:228-231 | inside quotes, `""` puts one `"` into the field and skips both characters |
| BookmarkParsers.QuotedRun | lib/bookmarkParsers.ts:236-242 | inside quotes, a run without `"` is copied into the field as it is, commas included |
| BookmarkParsers.QuotedField | lib/bookmarkParsers.ts:227-242 | a field wrapped in quotes gives its text as one field, without the quotes, even when it holds commas |
| BookmarkParsers.FolderId | lib/bookmarkParsers.ts:155 | a folder id is `folder_` followed by the path, so distinct paths get distinct ids |
| BookmarkParsers.NonBlank | lib/bookmarkParsers.ts:101 | the kept lines are exactly the lines that are not blank, in order |
| BookmarkParsers.HeaderColumns | lib/bookmarkParsers.ts:108 | one column per comma-separated header cell, trimmed and lower-cased |
| BookmarkParsers.FindIndex | lib/bookmarkParsers.ts:109-115 | -1 when no column has one of the names; otherwise the first column that has one |
| BookmarkParsers.ReadRow | lib/bookmarkParsers.ts:135-137 | a read row always has a title ("Untitled" for an empty one) and never an empty url |
| BookmarkParsers.NextPath | lib/bookmarkParsers.ts:154 | after the first part the path grows |
| BookmarkParsers.FolderStep | lib/bookmarkParsers.ts:153-183 | a folder step touches neither the bookmarks nor the id counter |
| BookmarkParsers.CreateFolder | lib/bookmarkParsers.ts:157-181 | creating a folder touches neither the bookmarks nor the id counter |
| BookmarkParsers.Walk | lib/bookmarkParsers.ts:149-185 | the folder loop touches neither the bookmarks nor the id counter |
| BookmarkParsers.Bump | lib/bookmarkParsers.ts:143 | each bookmark advances the id counter by one |
| BookmarkParsers.RowStepCounter | lib/bookmarkParsers.ts:131-143 | a short row leaves the counter alone; every other row takes exactly one id |
| BookmarkParsers.ParseCSVBookmarks | lib/bookmarkParsers.ts:99-214 | the row loop and its folder loop, updating the folder map, bookmarks, root list and counter, give the as-written result of the specification function |
| BookmarkParsers.ProcessRow | lib/bookmarkParsers.ts:130-205 | one pass of the row loop body is one row step of the specification |
| BookmarkParsers.WalkFolders | lib/bookmarkParsers.ts:149-185 | the folder loop gives the folders and the final path of the specification's walk |
| BookmarkParsers.AddFolder | lib/bookmarkParsers.ts:153-183 | one pass of the folder loop body is one folder step, parent looked up by the untrimmed prefix |
| BookmarkParsers.AttachBookmark | lib/bookmarkParsers.ts:188-205 | the bookmark node is stored and pushed onto its folder's children or the root list as the specification places it |
| BookmarkParsers.AddBookmarkPlaced | lib/bookmarkParsers.ts:143-193 | the new bookmark is stored under the next `bookmark_<n>` id with the row's title and url, and has a parent exactly when the row has folder parts |
| BookmarkParsers.BlankFile | lib/bookmarkParsers.ts:101-105 | blank content fails with the prefixed "CSV file is empty" |
| BookmarkParsers.MissingTitleColumn | lib/bookmarkParsers.ts:108-121 | a header without a title column fails with the prefixed columns message |
| BookmarkParsers.NewFolderLinked | lib/bookmarkParsers.ts:157-180 | with the parent looked up under the trimmed path, a newly created folder hangs where its parent id says |
| BookmarkParsers.FolderStepAttached | lib/bookmarkParsers.ts:153-183 | with the corrected parent lookup, a folder step keeps every node attached |
| BookmarkParsers.WalkAttached | lib/bookmarkParsers.ts:149-185 | with the corrected lookup, the folder loop keeps every node attached and its final folder exists |
| BookmarkParsers.FinishAttached | lib/bookmarkParsers.ts:188-205 | placing the bookmark keeps every node attached |
| BookmarkParsers.RowsAttached | lib/bookmarkParsers.ts:129-206 | with the corrected lookup, every row keeps every folder and bookmark reachable from the root list |
| BookmarkParsers.ParseCSVAttached | lib/bookmarkParsers.ts:99-214 | with the corrected lookup, every folder and bookmark of a parsed file hangs where its parent id says |
| BookmarkParsers.PathJoin | lib/bookmarkParsers.ts:154-161 | the path built step by step is the trimmed parts joined by "/" |
| BookmarkParsers.WalkAgrees | lib/bookmarkParsers.ts:149-185 | when every part is already trimmed, the as-written lookup and the corrected one build the same folders |
| BookmarkParsers.AddBookmarkAgrees | lib/bookmarkParsers.ts:143-205 | for a row whose parts are trimmed, the as-written and the corrected rows give the same result |
| BookmarkParsers.OrphanWalk | lib/bookmarkParsers.ts:150-180 | for two parts whose first has surrounding spaces, the as-written walk creates the second folder with no parent and in no children list |
| BookmarkParsers.OrphanedFolder | lib/bookmarkParsers.ts:161-172 | that orphaned folder is in the map with no parent and the result is not attached |
| BookmarkParsers.SpacedCellOrphans | lib/bookmarkParsers.ts:150 | the cell `a / b` gives the parts `a ` and ` b`, whose first has surrounding spaces |
| Extensions.IconUrl | hooks/useExtensions.ts:30 | no icon url without icons; otherwise the url of the last icon |
| Extensions.ToInfo | hooks/useExtensions.ts:25-34 | the copy keeps the id and the enabled flag and takes the last icon's url |
| Extensions.Listed | hooks/useExtensions.ts:22-34 | no longer than the management list, and every listed entry is an extension or hosted app that is not this extension |
| Extensions.ListedExactly | hooks/useExtensions.ts:22-34 | every item that passes the filter is listed, as its copy |
| Extensions.ListedFrom | hooks/useExtensions.ts:22-34 | every listed entry is the copy of some item that passes the filter |
| Extensions.WithEnabled | hooks/useExtensions.ts:69 | `{ ...e, enabled }`: the flag takes the new value and the id and name stay |
| Extensions.SetEnabled | hooks/useExtensions.ts:69 | the list keeps its length |
| Extensions.SetEnabledOnly | hooks/useExtensions.ts:69 | entries with the id take the new flag, and every other entry is unchanged |
| Extensions.Remove | hooks/useExtensions.ts:78 | the list never grows |
| Extensions.RemoveMembers | hooks/useExtensions.ts:78 | an entry stays exactly when it was there and has another id |
| Extensions.RemoveAppend | hooks/useExtensions.ts:78 | removing from two joined lists is removing from each, so the order of the rest is kept |
| Extensions.ExtensionsState.constructor | hooks/useExtensions.ts:15-16 | the list starts empty and loading |
| Extensions.ExtensionsState.FetchExtensions | hooks/useExtensions.ts:18-40 | with the management API the list is the filtered copies; without it the stand-in list; loading ends either way |
| Extensions.ExtensionsState.ToggleExtension | hooks/useExtensions.ts:64-71 | with the management API the list is left to the listener; without it the entry's flag is set in place |
| Extensions.ExtensionsState.UninstallExtension | hooks/useExtensions.ts:73-80 | with the management API the list is left to the listener; without it entries with the id are dropped |
| ExtensionManager.Matching | components/ExtensionManager.tsx:15-18 | the filtered list is no longer than the list |
| ExtensionManager.MatchingCounts | components/ExtensionManager.tsx:15-18 | every entry whose lower-cased name or description contains the lower-cased query is kept as often as it occurs, and no other entry is |
| ExtensionManager.EmptyQueryKeepsAll | components/ExtensionManager.tsx:15-18 | an empty query keeps the whole list in its order |
| ExtensionManager.NameLeqTotal | components/ExtensionManager.tsx:24 | any two names are ordered one way or the other |
| ExtensionManager.NameLeqTrans | components/ExtensionManager.tsx:24 | the name order is transitive |
| ExtensionManager.BeforeTotal | components/ExtensionManager.tsx:19-25 | the comparator orders any two entries |
| ExtensionManager.BeforeTrans | components/ExtensionManager.tsx:19-25 | the comparator is transitive, so sorting by it is well defined |
| ExtensionManager.Insert | components/ExtensionManager.tsx:19-25 | inserting adds exactly one entry |
| ExtensionManager.Sort | components/ExtensionManager.tsx:19-25 | sorting keeps the length |
| ExtensionManager.InsertPerm | components/ExtensionManager.tsx:19-25 | inserting adds the entry and loses none |
| ExtensionManager.SortPerm | components/ExtensionManager.tsx:19-25 | the sorted list is a permutation of the list |
| ExtensionManager.InsertSorted | components/ExtensionManager.tsx:19-25 | inserting into a sorted list keeps it sorted |
| ExtensionManager.SortSorted | components/ExtensionManager.tsx:19-25 | the sorted list is sorted by the comparator |
| ExtensionManager.SortedGroups | components/ExtensionManager.tsx:20-24 | in a sorted list enabled entries come first, and within each group names are in order |
| ExtensionManager.FilteredExtensions | components/ExtensionManager.tsx:14-25 | the shown list is no longer than the list |
| ExtensionManager.Shown | components/ExtensionManager.tsx:14-25 | the shown list is sorted and is a permutation of the matching entries; an empty query shows every entry |
| ExtensionManager.ToggleRequest | components/ExtensionManager.tsx:59 | the power button asks for the entry's id with the opposite of its flag |
| ExtensionManager.ToggleFlips | components/ExtensionManager.tsx:59 | applied to the stand-in list, the request flips exactly that entry's flag |
| Auth.EmailPatternShape | hooks/useAuth.ts:137 | the e-mail pattern accepts exactly the addresses with one `@`, not first, no whitespace, and a dot with text on both sides inside the domain |
| Auth.OneAt | hooks/useAuth.ts:137 | an accepted address has no whitespace and no second `@` |
| Auth.SimpleAddress | hooks/useAuth.ts:137 | `a@b.c` is accepted |
| Auth.NoDotRefused | hooks/useAuth.ts:137 | `a@b`, with no dot in the domain, is refused |
| Auth.SignUpCheck | hooks/useAuth.ts:137-147 | sign-up goes on exactly when the address matches and the password is at least six UTF-16 code units long; the address is checked first |
| Auth.SignUpMessage | hooks/useAuth.ts:155-158 | a backend message about an already registered address becomes the sign-in hint; any other passes unchanged |
| Auth.SignInMessage | hooks/useAuth.ts:189-194 | bad credentials and an unconfirmed address get their own messages, the first taking precedence; any other passes unchanged |
| Auth.ThrownMessage | hooks/useAuth.ts:171-172 | a thrown error's message, or the generic one for anything else thrown |
| Auth.TokensOf | hooks/useAuth.ts:103-108 | the stored tokens are the session's access and refresh tokens |
| Auth.SignUpError | hooks/useAuth.ts:133-176 | sign-up ends without an error exactly when the checks pass and the backend succeeds; a failed check is the error |
| Auth.SignInError | hooks/useAuth.ts:178-212 | sign-in ends without an error exactly when the backend succeeds |
| Auth.AuthSession.constructor | hooks/useAuth.ts:16-19 | no user, no session, no error, loading, and not authenticated |
| Auth.AuthSession.LoadSession | hooks/useAuth.ts:22-79 | failing storage records the load error; no stored tokens ends loading with nothing else changed; stored tokens the backend refuses are cleared with the user and session; a granted session is taken |
| Auth.AuthSession.OnAuthStateChange | hooks/useAuth.ts:84-96 | sign-in and refresh with a session take it and store its tokens; sign-out clears session, user and tokens; other events change nothing |
| Auth.AuthSession.Grant | hooks/useAuth.ts:163-167 | a granted session is taken with its user and its tokens stored; an answer without a session changes nothing |
| Auth.AuthSession.SignUp | hooks/useAuth.ts:133-176 | the returned error is the recorded error; the session changes only when the checks pass and the backend grants one |
| Auth.AuthSession.SignIn | hooks/useAuth.ts:178-212 | the returned error is the recorded error; the session changes only when the backend grants one |
| Auth.AuthSession.SignOut | hooks/useAuth.ts:214-235 | success clears session, user and tokens and leaves no error; a failure or a throw records its message and keeps the session |
| AuthForm.EmailVerdict | components/AuthForm.tsx:24-36 | valid exactly when the field is filled and matches the pattern; the format error shows exactly for a filled field that does not match |
| AuthForm.PasswordVerdict | components/AuthForm.tsx:38-49 | valid exactly with at least six UTF-16 code units; the length error shows exactly for a non-empty value shorter than that |
| AuthForm.AstralPasswordLongEnough | components/AuthForm.tsx:43 | three characters beyond U+FFFF count as six units and pass the length check |
| AuthForm.FormCoversSignUpCheck | components/AuthForm.tsx:77-103 | whatever the form lets through passes the session's own sign-up checks |
| AuthForm.EmptyFieldsQuiet | components/AuthForm.tsx:24-49 | an empty field is invalid but shows no error |
| AuthForm.FalsyExactly | components/AuthForm.tsx:90-100 | `!result.error` holds for either call exactly after a success, a failure with an empty message, or a throw of an `Error` with an empty message; every reworded message and the generic thrown text are non-empty |
| AuthForm.EmptyFailureCloses | components/AuthForm.tsx:90-94 | a sign-in failing with an empty message leaves a falsy error, so the form closes; a throw of something other than an `Error` does not |
| AuthForm.AuthForm.constructor | components/AuthForm.tsx:15-22 | sign-in mode, empty fields, no errors, nothing submitting |
| AuthForm.AuthForm.ValidateEmail | components/AuthForm.tsx:24-36 | the field's error is the validator's and the result is its verdict; nothing else changes |
| AuthForm.AuthForm.ValidatePassword | components/AuthForm.tsx:38-49 | the field's error is the validator's and the result is its verdict; nothing else changes |
| AuthForm.AuthForm.HandleEmailChange | components/AuthForm.tsx:51-58 | the field takes the typed value and its error is cleared |
| AuthForm.AuthForm.HandlePasswordChange | components/AuthForm.tsx:64-71 | the field takes the typed value and its error is cleared |
| AuthForm.AuthForm.HandleEmailBlur | components/AuthForm.tsx:60-62 | leaving the field shows the validator's error for it |
| AuthForm.AuthForm.HandlePasswordBlur | components/AuthForm.tsx:73-75 | leaving the field shows the validator's error for it |
| AuthForm.AuthForm.HandleSubmit | components/AuthForm.tsx:77-103 | both validators run; a call is made exactly when both pass, in the current mode; `onClose` is called once after a call whose answer leaves a falsy error (a success, a failure with an empty message, or a throw of an `Error` without one); submitting is over at the end; a call that succeeds with a session installs it, its user and its stored tokens, any other outcome leaves them, and loading is untouched |
| AuthForm.AuthForm.Send | components/AuthForm.tsx:90-100 | the mode's call is made and its error is the session's error, none exactly on success, falsy exactly for the answers `ClosesOn` names; a success with a session installs session, user and stored tokens, anything else leaves them; loading is untouched |
| AuthForm.AuthForm.SwitchMode | components/AuthForm.tsx:105-109 | the other mode, both errors cleared, the fields kept |
| Bookmarks.ProcessNode | hooks/useBookmarks.ts:68-74 | the copy keeps id, title, url and parent id, has children exactly when the node has them, and as many |
| Bookmarks.Process | hooks/useBookmarks.ts:67-75 | one copy per node, in order |
| Bookmarks.Embed | hooks/useBookmarks.ts:67-75 | the browser node made from a copied node carries its fields and nothing more |
| Bookmarks.ProcessEmbed | hooks/useBookmarks.ts:67-75 | the copy loses none of the fields it keeps, at every depth |
| Bookmarks.EmbedProcess | hooks/useBookmarks.ts:67-75 | a browser node with only the kept fields is given back by copying it and embedding the copy |
| Bookmarks.Find | hooks/useBookmarks.ts:26 | a node with the id that no earlier node shares, i.e. the first one; none exactly when no node has it |
| Bookmarks.DisplayNodes | hooks/useBookmarks.ts:25-42 | the bookmarks bar's children when there are any, otherwise the root children |
| Bookmarks.DisplayNonEmpty | hooks/useBookmarks.ts:39-42 | while the root has children the shown list is never empty |
| Bookmarks.ShownTree | hooks/useBookmarks.ts:19-45 | an empty tree shows nothing, since reading its first root fails; otherwise one copy per display node |
| Bookmarks.MockDisplay | hooks/useBookmarks.ts:49-51 | the children of a leading "1" node when it has any; never empty unless the list is |
| Bookmarks.FindMock | hooks/useBookmarks.ts:49 | a found node has the id, and a leading node with the id is found |
| Bookmarks.MockShowsBar | hooks/useBookmarks.ts:49-52 | outside the browser the bookmarks bar's three entries are shown |
| Bookmarks.BookmarksState.constructor | hooks/useBookmarks.ts:12-13 | no bookmarks, loading |
| Bookmarks.BookmarksState.FetchBookmarks | hooks/useBookmarks.ts:16-59 | outside the browser the stand-in list; a tree shows its copied display nodes; a failure or an empty tree keeps the list; loading ends either way |
| Settings.Merge | hooks/useSettings.ts:24 | every key the stored object has wins; every other key keeps the base value |
| Settings.Full | hooks/useSettings.ts:43 | the object written to storage has every key |
| Settings.MergeNothing | hooks/useSettings.ts:24 | a stored object without keys leaves the defaults as they are |
| Settings.MergeFull | hooks/useSettings.ts:38-46 | what is written is what the next load shows |
| Settings.MergeTwice | hooks/useSettings.ts:24 | laying the same object over a second time changes nothing |
| Settings.MergeMissing | hooks/useSettings.ts:24 | a key the stored object lacks keeps the default's value |
| Settings.Apply | hooks/useSettings.ts:39 | the changed key has the new value and every other key keeps its value |
| Settings.SameValues | hooks/useSettings.ts:3-7 | settings that agree on every key are equal |
| Settings.ApplyLaws | hooks/useSettings.ts:39 | setting a key to the value it has changes nothing, and a later change of the same key replaces an earlier one |
| Settings.SettingsState.constructor | hooks/useSettings.ts:16-17 | the defaults, loading |
| Settings.SettingsState.Load | hooks/useSettings.ts:19-36 | in the extension a stored object is laid over the defaults; in a page the saved settings replace them as they are; without either nothing changes; loading ends |
| Settings.SettingsState.UpdateSetting | hooks/useSettings.ts:38-47 | one key changes, the others keep their values, and the new settings are written to the store in use |
| TabScreenshots.CacheKey | hooks/useTabScreenshots.ts:52 | every cache key starts with `tab_` |
| TabScreenshots.CacheKeyInjective | hooks/useTabScreenshots.ts:52 | distinct tabs never share a cache key |
| TabScreenshots.Lookup | hooks/useTabScreenshots.ts:53 | the entry under the key, present exactly when the key is |
| TabScreenshots.Expiry | hooks/useTabScreenshots.ts:26-29 | an entry is valid from when it was taken for 299999 ms and stale from 300000 ms on |
| TabScreenshots.Decide | hooks/useTabScreenshots.ts:45-100 | the checks run in the source's order: no tabs API, a valid cached shot, an inactive tab; a capture happens exactly when the tab is active, not cached, still there, not a special page, and the capture succeeds |
| TabScreenshots.OutcomeUrl | hooks/useTabScreenshots.ts:45-100 | an image is returned exactly for a cached or a captured shot |
| TabScreenshots.Shot | hooks/useTabScreenshots.ts:122-137 | a valid cached shot is shown; without a window nothing is captured |
| TabScreenshots.ShotSource | hooks/useTabScreenshots.ts:122-137 | every shown image is a valid cached one or a non-empty capture of the active tab on an ordinary page |
| TabScreenshots.ShotList | hooks/useTabScreenshots.ts:119-139 | one shot per tab, in list order |
| TabScreenshots.SaveList | hooks/useTabScreenshots.ts:119-139 | a tab saves an image to the cache exactly when it is captured |
| TabScreenshots.LastSaved | hooks/useTabScreenshots.ts:119-139 | the position found holds a save |
| TabScreenshots.LastSavedIs | hooks/useTabScreenshots.ts:119-139 | the position found is the last save of the pass, and there is none exactly when nothing was saved |
| TabScreenshots.LastSavedStep | hooks/useTabScreenshots.ts:119-139 | after one more tab the last save is that tab if it saved, otherwise the last save before it |
| TabScreenshots.LoadingDone | hooks/useTabScreenshots.ts:119-139 | after a pass every tab has a loading flag, no other id does, and every flag is false |
| TabScreenshots.RecordDistinct | hooks/useTabScreenshots.ts:119-139 | with distinct tab ids each tab's shot is recorded under its id, and a tab without a shot has no entry |
| TabScreenshots.NotYetSeen | hooks/useTabScreenshots.ts:104-139 | an id none of the tabs has gets no entry |
| TabScreenshots.CachedShown | hooks/useTabScreenshots.ts:124-128 | a tab with a valid cached shot shows that shot |
| TabScreenshots.ScreenshotsState.constructor | hooks/useTabScreenshots.ts:11-13 | no screenshots, no loading flags, an empty cache |
| TabScreenshots.ScreenshotsState.LoadCache | hooks/useTabScreenshots.ts:16-24 | a stored cache replaces the cache; without storage or a stored cache nothing changes |
| TabScreenshots.ScreenshotsState.SaveToCache | hooks/useTabScreenshots.ts:31-43 | the new cache is the given cache with the key set to the image and now; every other key is kept; the cache is stored when storage exists |
| TabScreenshots.ScreenshotsState.CaptureScreenshot | hooks/useTabScreenshots.ts:45-100 | the result is the decided outcome's image; only a capture changes the cache, adding the new entry to the cache the call saw, and only a capture with storage present changes what is stored, to that cache |
| TabScreenshots.ScreenshotsState.Visit | hooks/useTabScreenshots.ts:120-138 | one turn for one tab sets its loading flag and then leaves it false, adds its shot to the records when it has one, and the cache holds its save on top of the cache the pass saw; storage then holds that cache if the tab saved and storage exists, and is otherwise untouched |
| TabScreenshots.ScreenshotsState.LoadScreenshots | hooks/useTabScreenshots.ts:102-148 | no tabs change nothing; otherwise the screenshots are the recorded shots, every loading flag is false, and the cache keeps only the last capture of the pass added to the cache the pass started from; storage ends holding that cache when storage exists and some tab saved, and is otherwise untouched |
| TabScreenshots.Overwrite | hooks/useTabScreenshots.ts:120-138 | setting a flag true and then false is setting it false |
| TabScreenshots.TurnStep | hooks/useTabScreenshots.ts:119-139 | one turn of the loop carries the records, flags, cache and storage from the first `i` tabs to the first `i + 1` |
| TabScreenshots.PassStep | hooks/useTabScreenshots.ts:119-139 | one more tab adds its shot, sets its flag false, and replaces the cache when it saves |
| Prompts.PromptsState.constructor | hooks/usePrompts.ts:50-52 | no prompts, loading, no error |
| Text.TrimStart | lib/bookmarkParsers.ts:101 | the result is a suffix of the string, all that was cut is whitespace, and it does not start with whitespace |
| Text.TrimEnd | lib/bookmarkParsers.ts:101 | the result is a prefix of the string, all that was cut is whitespace, and it does not end with whitespace |
| Text.Trim | lib/bookmarkParsers.ts:101 | the trimmed string lies inside the string, has no whitespace at either end, and is empty exactly for a blank string |
| Text.TrimPadded | lib/bookmarkParsers.ts:153 | leading whitespace before a word is removed and the word kept |
| Text.Utf16Length | hooks/useAuth.ts:144 | `length` counts UTF-16 units: at least the number of characters and at most twice it |
| Text.Utf16LengthBmp | hooks/useAuth.ts:144 | on text within the Basic Multilingual Plane the UTF-16 length is the number of characters |
| Text.Lower | components/ExtensionManager.tsx:16-17 | `toLowerCase` changes each character on its own and keeps the length |
| Text.Split | lib/bookmarkParsers.ts:150 | `split` gives at least one piece, no piece holds the separator, and joining the pieces with it gives the string back |
| Text.SplitJoin | lib/bookmarkParsers.ts:150 | splitting the join of pieces without the separator gives the pieces back |
| Text.SplitNoSep | lib/bookmarkParsers.ts:150 | a string without the separator is one piece |
| Text.ReplaceAllAbsent | hooks/usePromptVariables.ts:46 | a text without the placeholder is left as it is |
| Text.ReplaceAllSelf | hooks/usePromptVariables.ts:46 | replacing a placeholder by itself changes nothing |
| Text.NatToString | hooks/usePromptVariables.ts:46 | `String(n)` of a natural number is a non-empty run of digits whose value is n |
| Text.ParseUnsigned | components/VariableInput.tsx:61 | `parseFloat` of leading digits never gives a negative value |
| Text.IntToStringParses | hooks/usePromptVariables.ts:132 | `parseFloat(String(n))` is n for every whole number |
| Text.ParseNegative | hooks/usePromptVariables.ts:132 | a leading minus sign negates the number after it |

## Left out

- Network and database I/O (Supabase queries, sessions, token refresh) is not performed. Each backend call is an answer passed as a parameter. The tables of `hooks/usePrompts.ts` are in-memory row lists, and timestamps are not kept.
- `deletePrompt` in `hooks/usePrompts.ts` is a single database delete followed by a refetch, so it has no logic of its own to model.
- Browser APIs (`chrome.tabs`, `management`, `storage`, `bookmarks`, `captureVisibleTab`, `windows.getCurrent`) are parameters: what they return, whether they exist, and whether they throw.
- `async`/`await`, promise ordering and React effect scheduling are not modelled. Handlers run to completion one at a time. Effect re-runs caused by dependency changes are not modelled.
- Listener registration and removal (`onAuthStateChange`, the `management` events) is not modelled. Each event is a method call.
- Rendering, JSX, navigation, clipboard and `window.open` are not modelled, nor is `console` logging.
- `parseHTMLBookmarks` depends on `DOMParser`, and `hooks/useFavicon.ts` depends on fetch and a DOM parser. Neither is part of this model; the discovered icon is a parameter of `AppIcon.GetFaviconUrls`.
- Numbers are integers. `parseFloat` reads an optional sign and leading decimal digits, and `NaN` is a value of its own. Fractions, exponents and `Infinity` are not modelled, so the fact that `Infinity` passes the number check is not captured.
- `String(value)` of a number is the decimal text of an integer.
- Placeholder names are `\w+` runs. Replacement is a find-and-replace-all of the text the name's expression matches, which is `{{name}}` except for all-digit names (`PromptVariables.NamePattern`). `$` patterns in replacement values and regex characters in names are not modelled.
- PromptVariables.SubstituteKeepsUnknown is stated for keys that are words with at least one non-digit. An all-digit key n matches n open braces and `}` instead, as `PromptVariables.DigitKeyExample` shows.
- PromptVariables.SubstituteReplacesKey is stated for a key with at least one non-digit. For an all-digit key, `PromptVariables.DigitPlaceholderKept` states what happens instead: the placeholder stays.
- PromptVariables.Lookup reads only the map's own entries. In the source, a name that is a member of `Object.prototype` (`constructor`, `toString`, `valueOf` and the like) and no key of the map reads the inherited member, which is defined and truthy. The model treats such a name as absent.
- PromptManager.PutKeys keeps the order in which keys were first set. JavaScript lists canonical array-index keys (digits without a leading zero, below 2^32 - 1) before all other keys, in ascending numeric order. So for such names the entry order is not modelled.
- PromptVariables.SubstituteVariables applies the entries in the order the map is given. For maps with array-index keys, that is not always the order `Object.entries` would produce. The order matters only when one replacement produces another key's match.
- `toLowerCase` folds the ASCII letters only.
- Prompts.TaggedIds reads `%` and `_` as LIKE wildcards and a backslash as LIKE's escape. The backend's `*` alias for `%` is not modelled, and neither is its double-quoted value syntax.
- Prompts.Select matches title and content under ILIKE as LIKE on lower-cased text, with the ASCII lower-casing above.
- Prompts.SearchFinds treats a comma or parenthesis in the query or the tag filter as breaking the `.or(...)` condition, so the search returns nothing. The backend's full filter grammar is not modelled: quoted values, and `.` or `:` inside a value, are taken literally.
- Prompts.CreateReadsBack returns the tag paths in the order given. The tag query has no `order`, so the source promises only the multiset, which the lemma also states. The variable query orders by `order_index`, so the order given is kept only when the given `order_index` values ascend, as `PromptEditor.Renumber` makes them. Ties in `updated_at` are not modelled: the new prompt is taken to be the most recently updated.
- Prompts.SearchPrompts takes `failed` for the main prompt query only, whose failure is caught and gives no prompts. A failure of the tag or variable query inside `Promise.all` leaves those relations empty in the source. The model always joins the tables, so it does not capture that case.
- The submit button's `disabled` state (`isSubmitting`, or an empty field) is not modelled. `AuthForm.AuthForm.HandleSubmit` runs from any state, as the handler itself does.
- `ExtensionManager.NameLeq` orders names by character code, position by position. It stands in for `localeCompare`, whose locale order is not modelled.
- `JSON.parse` of the stored settings and of the page's saved session is not modelled. Its result is a parameter.
- `Settings.SettingsState.UpdateSetting` takes a typed change, while `updateSetting`'s value is `any`. Ill-typed values are not modelled.
- `Auth.AuthSession.LoadSession` models the extension branch only. The page branch that reads `localStorage` is not modelled.
- `Auth.AuthSession.OnAuthStateChange` records the stored tokens when the event arrives. The asynchronous `saveTokens` write behind it is not modelled separately.
- `Auth.AuthSession.LoadSession` leaves `loading` set when the backend call inside the storage callback throws. The source behaves the same way, since that throw escapes the outer `try`.
- `Bookmarks.TreeNode` has a `dateAdded` field. It stands for all the browser node fields that the copy drops.
- `TabScreenshots.ScreenshotsState.LoadScreenshots` takes a single `now` for the whole pass. The source reads `Date.now()` separately for each check.
- The current window id is an `Option<int>` parameter, `None` when `windows.getCurrent` fails. The `url` field of the hook's tab list is not read by the source, so it is not modelled.
- The HTML rendering of `AppIcon` (the `<img>` swap and the emoji span) is not modelled. Only the level and the current url are.

## Findings

| source | as written | input that shows it | evidently intended | confidence | as-written member | corrected member |
|---|---|---|---|---|---|---|
| lib/bookmarkParsers.ts:161-172 | A deeper folder's parent is looked up as `folder_` plus the untrimmed parts joined by "/". The folder ids, however, are built from the trimmed names. | A row whose folder cell is `a / b`. The parts are `a ` and ` b`, and the folder `a` is created as `folder_a`. The lookup asks for `folder_a `, so `folder_a/b` gets no parent, is in no children list, and neither it nor its bookmarks appear in the returned tree. | The parent is looked up under the trimmed path built so far, the id it was created under, so every folder and bookmark hangs in the tree. | medium; not executed | BookmarkParsers.OrphanedFolder | BookmarkParsers.ParseCSVAttached |
