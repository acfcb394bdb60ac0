/** The CSV bookmark importer of lib/bookmarkParsers.ts: `parseCSVLine`, a
    quote-aware field splitter, and `parseCSVBookmarks`, which finds the
    title, url and folder columns in the header and turns each data row into a
    bookmark placed under a chain of folders built from its `a/b/c` path.

    The importer builds a graph of objects that share folder nodes between a
    lookup map, the root list and the folders' `children` arrays. It is
    modelled as two tables keyed by id (folders and bookmarks) whose nodes
    name their children by id, plus the list of root ids: a `children.push`
    on a folder found through the map is an update of that folder's entry. */
module BookmarkParsers {
  import opened Wrappers
  import opened Text

  // ---------------------------------------------------------------------------
  // parseCSVLine
  // ---------------------------------------------------------------------------

  /** The scan of `parseCSVLine` from position `i`, with the field being built
      (`cur`), the quote state and the fields already ended. A `""` inside
      quotes adds one quote and skips the second; any other quote toggles the
      state and is dropped; a comma outside quotes ends the field. */
  function FieldsFrom(line: string, i: nat, cur: string, inQuotes: bool, acc: seq<string>): (r: seq<string>)
    requires i <= |line|
    ensures |r| > |acc|
    decreases |line| - i
  {
    if i == |line| then acc + [cur]
    else if line[i] == '"' then
      if inQuotes && i + 1 < |line| && line[i + 1] == '"' then FieldsFrom(line, i + 2, cur + ['"'], inQuotes, acc)
      else FieldsFrom(line, i + 1, cur, !inQuotes, acc)
    else if line[i] == ',' && !inQuotes then FieldsFrom(line, i + 1, "", inQuotes, acc + [cur])
    else FieldsFrom(line, i + 1, cur + [line[i]], inQuotes, acc)
  }

  /** The fields of one CSV line; there is always at least one. */
  function Fields(line: string): (r: seq<string>)
    ensures |r| >= 1
  {
    FieldsFrom(line, 0, "", false, [])
  }

  /** `parseCSVLine`: walks the line once, building the current field and
      pushing it at each unquoted comma and at the end. */
  method ParseCSVLine(line: string) returns (values: seq<string>)
    ensures values == Fields(line)
  {
    values := [];
    var current := "";
    var inQuotes := false;
    var i := 0;
    while i < |line|
      invariant 0 <= i <= |line|
      invariant FieldsFrom(line, i, current, inQuotes, values) == Fields(line)
      decreases |line| - i
    {
      var c := line[i];
      if c == '"' {
        if inQuotes && i + 1 < |line| && line[i + 1] == '"' {
          current := current + ['"'];
          i := i + 1;
        } else {
          inQuotes := !inQuotes;
        }
      } else if c == ',' && !inQuotes {
        values := values + [current];
        current := "";
      } else {
        current := current + [c];
      }
      i := i + 1;
    }
    values := values + [current];
  }

  /** Adds `cur` in front of the first piece. */
  function PrependFirst(cur: string, pieces: seq<string>): seq<string>
    requires |pieces| >= 1
  {
    [cur + pieces[0]] + pieces[1..]
  }

  /** Outside quotes, a stretch without quote characters is split at every comma. */
  lemma {:induction false} NoQuotesFrom(line: string, i: nat, cur: string, acc: seq<string>)
    requires i <= |line| && '"' !in line[i..]
    ensures FieldsFrom(line, i, cur, false, acc) == acc + PrependFirst(cur, Split(line[i..], ','))
    decreases |line| - i
  {
    if i == |line| {
      assert line[i..] == "";
      assert cur + "" == cur;
    } else {
      assert line[i..][1..] == line[i + 1..];
      assert line[i] == line[i..][0];
      if line[i] == ',' {
        NoQuotesFrom(line, i + 1, "", acc + [cur]);
        NoQuotesAtComma(line, i, cur, acc);
      } else {
        NoQuotesFrom(line, i + 1, cur + [line[i]], acc);
        NoQuotesAtOther(line, i, cur, acc);
      }
    }
  }

  lemma NoQuotesAtComma(line: string, i: nat, cur: string, acc: seq<string>)
    requires i < |line| && line[i] == ','
    requires FieldsFrom(line, i + 1, "", false, acc + [cur])
             == acc + [cur] + PrependFirst("", Split(line[i + 1..], ','))
    ensures FieldsFrom(line, i, cur, false, acc) == acc + PrependFirst(cur, Split(line[i..], ','))
  {
    var rest := Split(line[i + 1..], ',');
    assert FieldsFrom(line, i, cur, false, acc) == FieldsFrom(line, i + 1, "", false, acc + [cur]);
    assert line[i..][1..] == line[i + 1..];
    NoQuotesComma(line[i..], cur, rest);
    FieldsAssoc(acc, [cur], PrependFirst("", rest));
  }

  lemma FieldsAssoc(a: seq<string>, b: seq<string>, c: seq<string>)
    ensures a + b + c == a + (b + c)
  {
  }

  lemma NoQuotesAtOther(line: string, i: nat, cur: string, acc: seq<string>)
    requires i < |line| && line[i] != ',' && line[i] != '"'
    requires FieldsFrom(line, i + 1, cur + [line[i]], false, acc)
             == acc + PrependFirst(cur + [line[i]], Split(line[i + 1..], ','))
    ensures FieldsFrom(line, i, cur, false, acc) == acc + PrependFirst(cur, Split(line[i..], ','))
  {
    assert line[i..][1..] == line[i + 1..];
    NoQuotesOther(line[i..], cur, Split(line[i + 1..], ','));
  }

  lemma NoQuotesComma(s: string, cur: string, rest: seq<string>)
    requires |s| > 0 && s[0] == ',' && rest == Split(s[1..], ',')
    ensures PrependFirst(cur, Split(s, ',')) == [cur] + PrependFirst("", rest)
  {
    SplitStep(s, ',');
    assert cur + "" == cur;
    assert "" + rest[0] == rest[0];
  }

  lemma NoQuotesOther(s: string, cur: string, rest: seq<string>)
    requires |s| > 0 && s[0] != ',' && rest == Split(s[1..], ',')
    ensures PrependFirst(cur, Split(s, ',')) == PrependFirst(cur + [s[0]], rest)
  {
    var sp := Split(s, ',');
    SplitStep(s, ',');
    assert sp[0] == [s[0]] + rest[0] && sp[1..] == rest[1..];
    ConcatAssoc(cur, [s[0]], rest[0]);
    assert PrependFirst(cur, sp) == [cur + sp[0]] + sp[1..];
  }

  lemma ConcatAssoc(a: string, b: string, c: string)
    ensures a + (b + c) == (a + b) + c
  {
  }

  /** A line without quote characters gives exactly `line.split(",")`. */
  lemma NoQuotes(line: string)
    requires '"' !in line
    ensures Fields(line) == Split(line, ',')
  {
    assert line[0..] == line;
    NoQuotesFrom(line, 0, "", []);
    var pieces := Split(line, ',');
    assert "" + pieces[0] == pieces[0];
    assert [] + PrependFirst("", pieces) == pieces;
  }

  /** Inside quotes, `""` adds one literal quote and the scan stays quoted. */
  lemma EscapedQuote(line: string, i: nat, cur: string, acc: seq<string>)
    requires i + 1 < |line| && line[i] == '"' && line[i + 1] == '"'
    ensures FieldsFrom(line, i, cur, true, acc) == FieldsFrom(line, i + 2, cur + ['"'], true, acc)
  {
  }

  /** Inside quotes, a stretch without quote characters is copied whole,
      commas included. */
  lemma {:induction false} QuotedRun(line: string, i: nat, k: nat, cur: string, acc: seq<string>)
    requires i <= k <= |line| && forall m :: i <= m < k ==> line[m] != '"'
    ensures FieldsFrom(line, i, cur, true, acc) == FieldsFrom(line, k, cur + line[i..k], true, acc)
    decreases k - i
  {
    if i == k {
      assert cur + line[i..k] == cur;
    } else {
      QuotedRun(line, i + 1, k, cur + [line[i]], acc);
      assert cur + [line[i]] + line[i + 1..k] == cur + line[i..k];
    }
  }

  /** A line that is one quoted field without inner quotes gives that field,
      commas and all. */
  lemma QuotedField(line: string, s: string)
    requires |line| == |s| + 2 && line[0] == '"' && line[1..|s| + 1] == s && line[|s| + 1] == '"'
    requires '"' !in s
    ensures Fields(line) == [s]
  {
    var n := |s| + 1;
    forall m | 1 <= m < n ensures line[m] != '"' {
      assert line[m] == s[m - 1];
    }
    assert FieldsFrom(line, 0, "", false, []) == FieldsFrom(line, 1, "", true, []);
    QuotedRun(line, 1, n, "", []);
    assert "" + line[1..n] == s;
    assert FieldsFrom(line, n, s, true, []) == FieldsFrom(line, n + 1, s, false, []);
  }

  // ---------------------------------------------------------------------------
  // The node tables
  // ---------------------------------------------------------------------------

  datatype Folder = Folder(id: string, title: string, parentId: Option<string>, children: seq<string>)

  /** A bookmark node; its `children` is always undefined. */
  datatype Bookmark = Bookmark(id: string, title: string, url: Option<string>, parentId: Option<string>)

  /** The importer's working state: `bookmarkMap` (folders by id), the
      bookmark nodes by id, `rootNodes` as ids, and `nodeIdCounter`. */
  datatype Forest = Forest(folders: map<string, Folder>, bookmarks: map<string, Bookmark>,
                           roots: seq<string>, counter: nat)

  const EmptyForest := Forest(map[], map[], [], 1)

  /** `folder_<path>`. */
  function FolderId(path: string): (r: string)
    ensures |r| == |path| + 7 && r[7..] == path
  {
    "folder_" + path
  }

  /** `bookmark_<n>`. */
  function BookmarkId(n: nat): string {
    "bookmark_" + NatToString(n)
  }

  // ---------------------------------------------------------------------------
  // Header and rows
  // ---------------------------------------------------------------------------

  /** `.filter((x) => x.trim().length > 0)`. */
  function NonBlank(xs: seq<string>): (r: seq<string>)
    ensures forall k :: 0 <= k < |r| ==> !IsBlank(r[k])
    ensures forall x :: x in r <==> x in xs && !IsBlank(x)
  {
    if |xs| == 0 then []
    else if IsBlank(xs[0]) then NonBlank(xs[1..])
    else [xs[0]] + NonBlank(xs[1..])
  }

  /** The header cells: split on commas (quotes are not honoured here),
      trimmed and lower-cased. */
  function HeaderColumns(line: string): (cols: seq<string>)
    ensures |cols| == |Split(line, ',')|
    ensures forall k :: 0 <= k < |cols| ==> cols[k] == Lower(Trim(Split(line, ',')[k]))
  {
    var cells := Split(line, ',');
    seq(|cells|, k requires 0 <= k < |cells| => Lower(Trim(cells[k])))
  }

  /** `findIndex`: the first column among `names`, or -1. */
  function FindIndex(cols: seq<string>, names: seq<string>): (r: int)
    ensures -1 <= r < |cols|
    ensures r == -1 <==> forall k :: 0 <= k < |cols| ==> cols[k] !in names
    ensures r >= 0 ==> cols[r] in names && forall k :: 0 <= k < r ==> cols[k] !in names
  {
    if |cols| == 0 then -1
    else if cols[0] in names then 0
    else
      var r := FindIndex(cols[1..], names);
      if r == -1 then -1 else r + 1
  }

  const TitleNames := ["title", "name", "bookmark"]
  const UrlNames := ["url", "link", "href"]
  const FolderNames := ["folder", "path", "folder_path", "category"]

  const ErrorPrefix := "Failed to parse CSV bookmarks: "
  const EmptyMessage := "CSV file is empty"
  const ColumnsMessage := "CSV file must contain 'title' and 'url' columns (case-insensitive)"

  /** What a data row contributes. */
  datatype Row = Row(title: string, url: Option<string>, folderPath: string)

  function Max(a: int, b: int): int {
    if a >= b then a else b
  }

  /** The fields of a row that is long enough: an empty title becomes
      "Untitled", an empty url becomes undefined, and a missing folder cell
      counts as no folder. */
  function ReadRow(values: seq<string>, ti: nat, ui: nat, fi: int): (r: Row)
    requires ti < |values| && ui < |values|
    ensures r.title != "" && r.url != Some("")
  {
    var t := Trim(values[ti]);
    var u := Trim(values[ui]);
    Row(if t == "" then "Untitled" else t,
        if u == "" then None else Some(u),
        if 0 <= fi < |values| then Trim(values[fi]) else "")
  }

  /** The folder parts of a path: its `/` pieces that are not blank, untrimmed. */
  function FolderParts(path: string): (parts: seq<string>)
  {
    NonBlank(Split(path, '/'))
  }

  // ---------------------------------------------------------------------------
  // Building the folder chain
  // ---------------------------------------------------------------------------

  /** `currentPath` after the folder name at position `j`. */
  function NextPath(prev: string, j: nat, name: string): (r: string)
    ensures j > 0 ==> |r| > |prev|
  {
    if j == 0 then name else prev + "/" + name
  }

  /** The id the source looks the parent folder up by: the prefix of the
      UNTRIMMED parts joined by "/" (`asWritten`), or the trimmed path built so
      far, which is the id the parent was created under. */
  function ParentKey(parts: seq<string>, j: nat, prev: string, asWritten: bool): string
    requires j <= |parts|
  {
    if asWritten then FolderId(Join(parts[..j], "/")) else FolderId(prev)
  }

  /** One iteration of the folder loop: the folder for the path so far is
      created once, on the root list when it is the first part and otherwise
      appended to its parent's children when the parent lookup finds it. */
  function FolderStep(st: Forest, parts: seq<string>, j: nat, prev: string, asWritten: bool): (r: Forest)
    requires j < |parts|
    ensures r.bookmarks == st.bookmarks && r.counter == st.counter
  {
    var name := Trim(parts[j]);
    CreateFolder(st, name, FolderId(NextPath(prev, j, name)), ParentKey(parts, j, prev, asWritten), j == 0)
  }

  /** Creates folder `fid` named `name` unless it exists: a first-level
      folder goes on the root list, a deeper one takes the folder under `key`
      as its parent and joins its children when the lookup finds it. */
  function CreateFolder(st: Forest, name: string, fid: string, key: string, first: bool): (r: Forest)
    ensures r.bookmarks == st.bookmarks && r.counter == st.counter
  {
    if fid in st.folders then st
    else
      var pid := if !first && key in st.folders then Some(st.folders[key].id) else None;
      var folders := st.folders[fid := Folder(fid, name, pid, [])];
      if first then
        Forest(folders, st.bookmarks, if fid in st.roots then st.roots else st.roots + [fid], st.counter)
      else Forest(AddChild(folders, key, fid), st.bookmarks, st.roots, st.counter)
  }

  /** Appends `child` to the children of folder `key`, unless that folder is
      missing or already lists it. */
  function AddChild(folders: map<string, Folder>, key: string, child: string): map<string, Folder> {
    if key in folders && child !in folders[key].children then
      folders[key := folders[key].(children := folders[key].children + [child])]
    else folders
  }

  /** The folder loop from part `j`, returning the state and the final path. */
  function Walk(st: Forest, parts: seq<string>, j: nat, prev: string, asWritten: bool): (r: (Forest, string))
    requires j <= |parts|
    ensures r.0.bookmarks == st.bookmarks && r.0.counter == st.counter
    decreases |parts| - j
  {
    if j == |parts| then (st, prev)
    else Walk(FolderStep(st, parts, j, prev, asWritten), parts, j + 1, NextPath(prev, j, Trim(parts[j])), asWritten)
  }

  /** One data row: short rows are skipped; otherwise the row is read and
      its bookmark added. */
  function RowStep(st: Forest, values: seq<string>, ti: nat, ui: nat, fi: int, asWritten: bool): Forest {
    if |values| <= Max(ti, ui) then st
    else AddBookmark(st, ReadRow(values, ti, ui, fi), asWritten)
  }

  /** The folder parts of a row: none when its folder cell is empty. */
  function RowParts(row: Row): seq<string> {
    if row.folderPath != "" then FolderParts(row.folderPath) else []
  }

  /** The parent of a row's bookmark: the deepest folder of its path. */
  function ParentOf(parts: seq<string>, path: string): Option<string> {
    if |parts| > 0 then Some(FolderId(path)) else None
  }

  /** A row that is read takes the next bookmark id, its folder chain is
      built, and the bookmark goes into the deepest folder's children, or onto
      the root list without a folder. (A read row always has a title, so the
      source's skip of rows without title and url never fires.) */
  function AddBookmark(st: Forest, row: Row, asWritten: bool): Forest {
    if row.title == "" && row.url.None? then st
    else
      var parts := RowParts(row);
      Finish(Walk(Bump(st), parts, 0, "", asWritten), BookmarkId(st.counter), row, parts)
  }

  /** The id counter advanced by one. */
  function Bump(st: Forest): (r: Forest)
    ensures r.counter == st.counter + 1
  {
    Forest(st.folders, st.bookmarks, st.roots, st.counter + 1)
  }

  /** The bookmark node after the folder loop, and its placement. */
  function Finish(w: (Forest, string), id: string, row: Row, parts: seq<string>): Forest {
    var parent := ParentOf(parts, w.1);
    Place(w.0.(bookmarks := w.0.bookmarks[id := Bookmark(id, row.title, row.url, parent)]), id, parent)
  }

  /** Attaching a bookmark: to its folder's children when that folder exists,
      to the root list when it has no folder. */
  function Place(st: Forest, id: string, parent: Option<string>): Forest {
    match parent
    case None => st.(roots := st.roots + [id])
    case Some(p) =>
      if p in st.folders then st.(folders := st.folders[p := st.folders[p].(children := st.folders[p].children + [id])])
      else st
  }

  /** The data rows from line `i` on. */
  function Rows(st: Forest, lines: seq<string>, i: nat, ti: nat, ui: nat, fi: int, asWritten: bool): Forest
    requires i <= |lines|
    decreases |lines| - i
  {
    if i == |lines| then st
    else Rows(RowStep(st, Fields(lines[i]), ti, ui, fi, asWritten), lines, i + 1, ti, ui, fi, asWritten)
  }

  /** `parseCSVBookmarks`: the non-blank lines, the header's columns, then the
      rows; both errors carry the common prefix. */
  function ParseCSV(content: string, asWritten: bool): (r: Result<Forest, string>)
  {
    var lines := NonBlank(Split(content, '\n'));
    if |lines| == 0 then Err(ErrorPrefix + EmptyMessage)
    else
      var header := HeaderColumns(lines[0]);
      var ti := FindIndex(header, TitleNames);
      var ui := FindIndex(header, UrlNames);
      var fi := FindIndex(header, FolderNames);
      if ti == -1 || ui == -1 then Err(ErrorPrefix + ColumnsMessage)
      else Ok(Rows(EmptyForest, lines, 1, ti, ui, fi, asWritten))
  }

  /** `parseCSVBookmarks` as written: the row loop with the folder loop inside
      it, updating the folder map, the bookmark nodes, the root list and the
      id counter. */
  method ParseCSVBookmarks(content: string) returns (r: Result<Forest, string>)
    ensures r == ParseCSV(content, true)
  {
    var lines := NonBlank(Split(content, '\n'));
    if |lines| == 0 {
      return Err(ErrorPrefix + EmptyMessage);
    }
    var header := HeaderColumns(lines[0]);
    var ti := FindIndex(header, TitleNames);
    var ui := FindIndex(header, UrlNames);
    var fi := FindIndex(header, FolderNames);
    if ti == -1 || ui == -1 {
      return Err(ErrorPrefix + ColumnsMessage);
    }
    var st := EmptyForest;
    for i := 1 to |lines|
      invariant Rows(EmptyForest, lines, 1, ti, ui, fi, true) == Rows(st, lines, i, ti, ui, fi, true)
    {
      var values := ParseCSVLine(lines[i]);
      st := ProcessRow(st, values, ti, ui, fi);
    }
    return Ok(st);
  }

  /** The body of the row loop. */
  method ProcessRow(st0: Forest, values: seq<string>, ti: nat, ui: nat, fi: int) returns (st: Forest)
    ensures st == RowStep(st0, values, ti, ui, fi, true)
  {
    st := st0;
    if |values| <= Max(ti, ui) {
      return;
    }
    var row := ReadRow(values, ti, ui, fi);
    assert RowStep(st0, values, ti, ui, fi, true) == AddBookmark(st0, row, true);
    if row.title == "" && row.url.None? {
      return;
    }
    var id := BookmarkId(st.counter);
    var parts := if row.folderPath != "" then FolderParts(row.folderPath) else [];
    assert parts == RowParts(row);
    var path;
    st, path := WalkFolders(Bump(st), parts);
    st := AttachBookmark(st, path, id, row, parts);
  }

  /** The folder loop of one row. */
  method WalkFolders(st0: Forest, parts: seq<string>) returns (st: Forest, path: string)
    ensures (st, path) == Walk(st0, parts, 0, "", true)
  {
    st, path := st0, "";
    for j := 0 to |parts|
      invariant Walk(st0, parts, 0, "", true) == Walk(st, parts, j, path, true)
    {
      st := AddFolder(st, parts, j, path);
      path := NextPath(path, j, Trim(parts[j]));
    }
  }

  /** The bookmark node and its placement, after the folder loop. */
  method AttachBookmark(st0: Forest, path: string, id: string, row: Row, parts: seq<string>) returns (st: Forest)
    ensures st == Finish((st0, path), id, row, parts)
  {
    var parent := if |parts| > 0 then Some(FolderId(path)) else None;
    st := st0.(bookmarks := st0.bookmarks[id := Bookmark(id, row.title, row.url, parent)]);
    if parent.Some? {
      if parent.value in st.folders {
        var folder := st.folders[parent.value];
        st := st.(folders := st.folders[parent.value := folder.(children := folder.children + [id])]);
      }
    } else {
      st := st.(roots := st.roots + [id]);
    }
  }

  /** The body of the folder loop, with the source's parent lookup. */
  method AddFolder(st0: Forest, parts: seq<string>, j: nat, prev: string) returns (st: Forest)
    requires j < |parts|
    ensures st == FolderStep(st0, parts, j, prev, true)
  {
    st := st0;
    var name := Trim(parts[j]);
    var fid := FolderId(NextPath(prev, j, name));
    if fid in st.folders {
      return;
    }
    var key := FolderId(Join(parts[..j], "/"));
    var pid := if j > 0 && key in st.folders then Some(st.folders[key].id) else None;
    st := st.(folders := st.folders[fid := Folder(fid, name, pid, [])]);
    if j == 0 {
      if fid !in st.roots {
        st := st.(roots := st.roots + [fid]);
      }
    } else if key in st.folders {
      var parentFolder := st.folders[key];
      if fid !in parentFolder.children {
        st := st.(folders := st.folders[key := parentFolder.(children := parentFolder.children + [fid])]);
      }
    }
  }

  // ---------------------------------------------------------------------------
  // The shape of the forest
  // ---------------------------------------------------------------------------

  /** `x` hangs where its parent id says: on the root list without a parent,
      among the parent folder's children otherwise. */
  predicate Linked(f: Forest, x: string, parent: Option<string>) {
    match parent
    case None => x in f.roots
    case Some(q) => q in f.folders && x in f.folders[q].children
  }

  /** Every folder and bookmark is stored under its own id and hangs where
      its parent id says, so the tree handed back shows every node. */
  predicate Attached(f: Forest) {
    (forall k :: k in f.folders ==> f.folders[k].id == k && Linked(f, k, f.folders[k].parentId))
    && (forall k :: k in f.bookmarks ==> f.bookmarks[k].id == k && Linked(f, k, f.bookmarks[k].parentId))
  }

  /** A folder record that at most had children appended. */
  predicate FolderGrows(a: Folder, b: Folder) {
    b.id == a.id && b.title == a.title && b.parentId == a.parentId && a.children <= b.children
  }

  /** No folder is replaced, child lists and the root list are only appended
      to. */
  predicate Grows(a: Forest, b: Forest) {
    MapGrows(a.folders, b.folders) && a.roots <= b.roots
  }

  /** Every folder of `a` is in `b`, at most with children appended. */
  predicate MapGrows(a: map<string, Folder>, b: map<string, Folder>) {
    forall k :: k in a ==> k in b && FolderGrows(a[k], b[k])
  }

  lemma MapGrowsTrans(a: map<string, Folder>, b: map<string, Folder>, c: map<string, Folder>)
    requires MapGrows(a, b) && MapGrows(b, c)
    ensures MapGrows(a, c)
  {
  }

  lemma InsertGrows(folders: map<string, Folder>, fid: string, f: Folder)
    requires fid !in folders
    ensures MapGrows(folders, folders[fid := f])
  {
  }

  lemma AddChildGrows(folders: map<string, Folder>, key: string, child: string)
    ensures MapGrows(folders, AddChild(folders, key, child))
    ensures key in folders ==> child in AddChild(folders, key, child)[key].children
  {
  }

  lemma PrefixIn(xs: seq<string>, ys: seq<string>, x: string)
    requires xs <= ys && x in xs
    ensures x in ys
  {
    var i :| 0 <= i < |xs| && xs[i] == x;
    assert ys[i] == x;
  }

  lemma GrowsLinked(a: Forest, b: Forest, x: string, p: Option<string>)
    requires Grows(a, b) && Linked(a, x, p)
    ensures Linked(b, x, p)
  {
    match p
    case None => PrefixIn(a.roots, b.roots, x);
    case Some(q) => PrefixIn(a.folders[q].children, b.folders[q].children, x);
  }

  lemma GrowsTrans(a: Forest, b: Forest, c: Forest)
    requires Grows(a, b) && Grows(b, c)
    ensures Grows(a, c)
  {
  }

  /** One folder step never replaces a folder record (each folder node is
      created once), only appends children and roots, and leaves the bookmark
      table and the counter alone; the folder of the path so far exists
      afterwards. Both parent lookups. */
  lemma FolderStepGrows(st: Forest, parts: seq<string>, j: nat, prev: string, asWritten: bool)
    requires j < |parts|
    ensures Grows(st, FolderStep(st, parts, j, prev, asWritten))
    ensures FolderId(NextPath(prev, j, Trim(parts[j]))) in FolderStep(st, parts, j, prev, asWritten).folders
  {
    var name := Trim(parts[j]);
    CreateFolderGrows(st, name, FolderId(NextPath(prev, j, name)), ParentKey(parts, j, prev, asWritten), j == 0);
  }

  lemma CreateFolderGrows(st: Forest, name: string, fid: string, key: string, first: bool)
    ensures Grows(st, CreateFolder(st, name, fid, key, first))
    ensures fid in CreateFolder(st, name, fid, key, first).folders
  {
    if fid !in st.folders {
      var pid := if !first && key in st.folders then Some(st.folders[key].id) else None;
      var folders := st.folders[fid := Folder(fid, name, pid, [])];
      InsertGrows(st.folders, fid, Folder(fid, name, pid, []));
      if !first {
        AddChildGrows(folders, key, fid);
        MapGrowsTrans(st.folders, folders, AddChild(folders, key, fid));
      }
    }
  }

  /** The whole folder loop keeps the same guarantees. */
  lemma {:induction false} WalkGrows(st: Forest, parts: seq<string>, j: nat, prev: string, asWritten: bool)
    requires j <= |parts|
    ensures Grows(st, Walk(st, parts, j, prev, asWritten).0)
    decreases |parts| - j
  {
    if j == |parts| {
      GrowsRefl(st);
    } else {
      var path := NextPath(prev, j, Trim(parts[j]));
      WalkGrows(FolderStep(st, parts, j, prev, asWritten), parts, j + 1, path, asWritten);
      WalkGrowsStep(st, parts, j, prev, asWritten);
    }
  }

  lemma GrowsRefl(st: Forest)
    ensures Grows(st, st)
  {
  }

  lemma WalkGrowsStep(st: Forest, parts: seq<string>, j: nat, prev: string, asWritten: bool)
    requires j < |parts|
    requires Grows(FolderStep(st, parts, j, prev, asWritten),
                   Walk(FolderStep(st, parts, j, prev, asWritten), parts, j + 1, NextPath(prev, j, Trim(parts[j])), asWritten).0)
    ensures Grows(st, Walk(st, parts, j, prev, asWritten).0)
  {
    var next := FolderStep(st, parts, j, prev, asWritten);
    WalkStep(st, parts, j, prev, asWritten);
    FolderStepGrows(st, parts, j, prev, asWritten);
    GrowsTrans(st, next, Walk(st, parts, j, prev, asWritten).0);
  }

  lemma WalkStep(st: Forest, parts: seq<string>, j: nat, prev: string, asWritten: bool)
    requires j < |parts|
    ensures Walk(st, parts, j, prev, asWritten)
         == Walk(FolderStep(st, parts, j, prev, asWritten), parts, j + 1, NextPath(prev, j, Trim(parts[j])), asWritten)
  {
  }

  /** Attaching the bookmark node only appends to one child list or to the
      roots, and the node is stored under its id with the given parent. */
  lemma FinishGrows(w: (Forest, string), id: string, row: Row, parts: seq<string>)
    ensures Grows(w.0, Finish(w, id, row, parts))
    ensures Finish(w, id, row, parts).counter == w.0.counter
    ensures id in Finish(w, id, row, parts).bookmarks
    ensures Finish(w, id, row, parts).bookmarks[id] == Bookmark(id, row.title, row.url, ParentOf(parts, w.1))
  {
    var parent := ParentOf(parts, w.1);
    var b := w.0.(bookmarks := w.0.bookmarks[id := Bookmark(id, row.title, row.url, parent)]);
    var r := Place(b, id, parent);
    if parent.Some? && parent.value in b.folders {
      forall k | k in b.folders ensures k in r.folders && FolderGrows(b.folders[k], r.folders[k]) {
      }
    }
  }

  /** Every data row, with either parent lookup, never replaces a folder or
      drops a root. */
  lemma RowStepGrows(st: Forest, values: seq<string>, ti: nat, ui: nat, fi: int, asWritten: bool)
    ensures Grows(st, RowStep(st, values, ti, ui, fi, asWritten))
  {
    if |values| > Max(ti, ui) {
      var row := ReadRow(values, ti, ui, fi);
      var w := Walk(Bump(st), RowParts(row), 0, "", asWritten);
      WalkGrows(Bump(st), RowParts(row), 0, "", asWritten);
      FinishGrows(w, BookmarkId(st.counter), row, RowParts(row));
      GrowsTrans(st, w.0, Finish(w, BookmarkId(st.counter), row, RowParts(row)));
    }
  }

  /** Every row long enough to read takes exactly one bookmark id: the skip of
      rows without title and url never fires, since a read title is never
      empty. Shorter rows take none. */
  lemma RowStepCounter(st: Forest, values: seq<string>, ti: nat, ui: nat, fi: int, asWritten: bool)
    ensures RowStep(st, values, ti, ui, fi, asWritten).counter
         == if |values| <= Max(ti, ui) then st.counter else st.counter + 1
  {
    if |values| > Max(ti, ui) {
      var row := ReadRow(values, ti, ui, fi);
      var w := Walk(Bump(st), RowParts(row), 0, "", asWritten);
      FinishGrows(w, BookmarkId(st.counter), row, RowParts(row));
    }
  }

  /** A read row's bookmark is stored under the id the counter gave it, with
      the row's title and url, and it has a parent folder exactly when the
      row names a non-blank folder. */
  lemma AddBookmarkPlaced(st: Forest, row: Row, asWritten: bool)
    requires row.title != ""
    ensures BookmarkId(st.counter) in AddBookmark(st, row, asWritten).bookmarks
    ensures AddBookmark(st, row, asWritten).bookmarks[BookmarkId(st.counter)].title == row.title
    ensures AddBookmark(st, row, asWritten).bookmarks[BookmarkId(st.counter)].url == row.url
    ensures AddBookmark(st, row, asWritten).bookmarks[BookmarkId(st.counter)].parentId.Some?
        <==> |RowParts(row)| > 0
  {
    var w := Walk(Bump(st), RowParts(row), 0, "", asWritten);
    FinishGrows(w, BookmarkId(st.counter), row, RowParts(row));
  }

  // ---------------------------------------------------------------------------
  // The corrected parent lookup keeps every node attached
  // ---------------------------------------------------------------------------

  /** The folder a step creates hangs under the folder of the previous level
      (or on the root list at level 0) when the parent is looked up by the
      trimmed path it was created under. */
  lemma NewFolderLinked(st: Forest, parts: seq<string>, j: nat, prev: string)
    requires j < |parts| && Attached(st)
    requires j > 0 ==> FolderId(prev) in st.folders
    requires FolderId(NextPath(prev, j, Trim(parts[j]))) !in st.folders
    ensures var fid := FolderId(NextPath(prev, j, Trim(parts[j])));
            var r := FolderStep(st, parts, j, prev, false);
            fid in r.folders && r.folders[fid].id == fid && Linked(r, fid, r.folders[fid].parentId)
  {
    var name := Trim(parts[j]);
    var fid := FolderId(NextPath(prev, j, name));
    if j > 0 {
      var key := FolderId(prev);
      assert key != fid;
      var pid := Some(st.folders[key].id);
      assert pid == Some(key);
      var folders := st.folders[fid := Folder(fid, name, pid, [])];
      AddChildGrows(folders, key, fid);
      assert FolderStep(st, parts, j, prev, false) == Forest(AddChild(folders, key, fid), st.bookmarks, st.roots, st.counter);
    }
  }

  lemma FolderStepAttached(st: Forest, parts: seq<string>, j: nat, prev: string)
    requires j < |parts| && Attached(st)
    requires j > 0 ==> FolderId(prev) in st.folders
    ensures Attached(FolderStep(st, parts, j, prev, false))
  {
    var fid := FolderId(NextPath(prev, j, Trim(parts[j])));
    var r := FolderStep(st, parts, j, prev, false);
    FolderStepGrows(st, parts, j, prev, false);
    if fid !in st.folders {
      NewFolderLinked(st, parts, j, prev);
      forall k | k in r.folders ensures r.folders[k].id == k && Linked(r, k, r.folders[k].parentId) {
        if k != fid {
          GrowsLinked(st, r, k, st.folders[k].parentId);
        }
      }
      forall k | k in r.bookmarks ensures r.bookmarks[k].id == k && Linked(r, k, r.bookmarks[k].parentId) {
        GrowsLinked(st, r, k, st.bookmarks[k].parentId);
      }
    }
  }

  /** The corrected folder loop keeps every node attached and ends with the
      folder of the whole path in the table. */
  lemma {:induction false} WalkAttached(st: Forest, parts: seq<string>, j: nat, prev: string)
    requires j <= |parts| && Attached(st)
    requires j > 0 ==> FolderId(prev) in st.folders
    ensures Attached(Walk(st, parts, j, prev, false).0)
    ensures j > 0 || j < |parts| ==> FolderId(Walk(st, parts, j, prev, false).1) in Walk(st, parts, j, prev, false).0.folders
    decreases |parts| - j
  {
    if j == |parts| {
      assert Walk(st, parts, j, prev, false) == (st, prev);
    } else {
      FolderStepAttached(st, parts, j, prev);
      FolderStepGrows(st, parts, j, prev, false);
      WalkAttached(FolderStep(st, parts, j, prev, false), parts, j + 1, NextPath(prev, j, Trim(parts[j])));
      WalkStep(st, parts, j, prev, false);
    }
  }

  /** Adding the bookmark node under the deepest folder keeps every node
      attached. */
  lemma FinishAttached(w: (Forest, string), id: string, row: Row, parts: seq<string>)
    requires Attached(w.0)
    requires |parts| > 0 ==> FolderId(w.1) in w.0.folders
    ensures Attached(Finish(w, id, row, parts))
  {
    var r := Finish(w, id, row, parts);
    var parent := ParentOf(parts, w.1);
    FinishGrows(w, id, row, parts);
    forall k | k in r.folders ensures r.folders[k].id == k && Linked(r, k, r.folders[k].parentId) {
      GrowsLinked(w.0, r, k, w.0.folders[k].parentId);
    }
    forall k | k in r.bookmarks ensures r.bookmarks[k].id == k && Linked(r, k, r.bookmarks[k].parentId) {
      if k != id {
        GrowsLinked(w.0, r, k, w.0.bookmarks[k].parentId);
      } else {
        PlaceLinks(w.0.(bookmarks := w.0.bookmarks[id := Bookmark(id, row.title, row.url, parent)]), id, parent);
      }
    }
  }

  lemma PlaceLinks(st: Forest, id: string, parent: Option<string>)
    requires parent.Some? ==> parent.value in st.folders
    ensures Linked(Place(st, id, parent), id, parent)
  {
  }

  lemma AddBookmarkAttached(st: Forest, row: Row)
    requires Attached(st)
    ensures Attached(AddBookmark(st, row, false))
  {
    if !(row.title == "" && row.url.None?) {
      var parts := RowParts(row);
      var w := Walk(Bump(st), parts, 0, "", false);
      assert AddBookmark(st, row, false) == Finish(w, BookmarkId(st.counter), row, parts);
      BumpAttached(st);
      WalkAttached(Bump(st), parts, 0, "");
      FinishAttached(w, BookmarkId(st.counter), row, parts);
    }
  }

  lemma BumpAttached(st: Forest)
    requires Attached(st)
    ensures Attached(Bump(st))
  {
    var b := Bump(st);
    assert b.folders == st.folders && b.bookmarks == st.bookmarks && b.roots == st.roots;
    forall x, p | Linked(st, x, p) ensures Linked(b, x, p) {
    }
  }

  lemma {:induction false} RowsAttached(st: Forest, lines: seq<string>, i: nat, ti: nat, ui: nat, fi: int)
    requires i <= |lines| && Attached(st)
    ensures Attached(Rows(st, lines, i, ti, ui, fi, false))
    decreases |lines| - i
  {
    if i < |lines| {
      var values := Fields(lines[i]);
      if |values| > Max(ti, ui) {
        AddBookmarkAttached(st, ReadRow(values, ti, ui, fi));
      }
      RowsAttached(RowStep(st, values, ti, ui, fi, false), lines, i + 1, ti, ui, fi);
    }
  }

  /** With the corrected parent lookup, every folder and bookmark the import
      produces hangs under its parent or on the root list. */
  lemma ParseCSVAttached(content: string)
    ensures ParseCSV(content, false).Ok? ==> Attached(ParseCSV(content, false).value)
  {
    var lines := NonBlank(Split(content, '\n'));
    if |lines| > 0 {
      var header := HeaderColumns(lines[0]);
      var ti := FindIndex(header, TitleNames);
      var ui := FindIndex(header, UrlNames);
      if ti != -1 && ui != -1 {
        RowsAttached(EmptyForest, lines, 1, ti, ui, FindIndex(header, FolderNames));
      }
    }
  }

  // ---------------------------------------------------------------------------
  // The parent lookup as written
  // ---------------------------------------------------------------------------

  /** Parts that trimming leaves unchanged. */
  predicate Trimmed(parts: seq<string>) {
    forall k :: 0 <= k < |parts| ==> Trim(parts[k]) == parts[k]
  }

  /** Over trimmed parts the path built so far is the untrimmed prefix joined
      by "/". */
  lemma PathJoin(parts: seq<string>, j: nat, prev: string, name: string)
    requires j < |parts| && name == parts[j] && prev == Join(parts[..j], "/")
    ensures NextPath(prev, j, name) == Join(parts[..j + 1], "/")
  {
    assert parts[..j + 1] == parts[..j] + [parts[j]];
    if j > 0 {
      JoinSnoc(parts[..j], parts[j], "/");
    }
  }

  /** When every folder part is already trimmed, the lookup as written finds
      the same parent as the corrected one, so both loops agree. */
  lemma {:induction false} WalkAgrees(st: Forest, parts: seq<string>, j: nat, prev: string)
    requires j <= |parts| && Trimmed(parts) && prev == Join(parts[..j], "/")
    ensures Walk(st, parts, j, prev, true) == Walk(st, parts, j, prev, false)
    decreases |parts| - j
  {
    if j == |parts| {
      assert Walk(st, parts, j, prev, true) == (st, prev);
    } else {
      assert Trim(parts[j]) == parts[j];
      var path := NextPath(prev, j, Trim(parts[j]));
      PathJoin(parts, j, prev, Trim(parts[j]));
      WalkAgrees(FolderStep(st, parts, j, prev, true), parts, j + 1, path);
      WalkAgreesStep(st, parts, j, prev);
    }
  }

  lemma WalkAgreesStep(st: Forest, parts: seq<string>, j: nat, prev: string)
    requires j < |parts| && prev == Join(parts[..j], "/")
    requires Walk(FolderStep(st, parts, j, prev, true), parts, j + 1, NextPath(prev, j, Trim(parts[j])), true)
          == Walk(FolderStep(st, parts, j, prev, true), parts, j + 1, NextPath(prev, j, Trim(parts[j])), false)
    ensures Walk(st, parts, j, prev, true) == Walk(st, parts, j, prev, false)
  {
    SameParentKey(st, parts, j, prev);
    WalkStep(st, parts, j, prev, true);
    WalkStep(st, parts, j, prev, false);
  }

  /** Where the joined prefix is the path so far, both lookups take the same
      step. */
  lemma SameParentKey(st: Forest, parts: seq<string>, j: nat, prev: string)
    requires j < |parts| && prev == Join(parts[..j], "/")
    ensures FolderStep(st, parts, j, prev, true) == FolderStep(st, parts, j, prev, false)
  {
    assert ParentKey(parts, j, prev, true) == ParentKey(parts, j, prev, false);
  }

  /** A row whose folder parts are all trimmed is imported the same way by
      the code as written and by the corrected lookup. */
  lemma AddBookmarkAgrees(st: Forest, row: Row)
    requires Trimmed(RowParts(row))
    ensures AddBookmark(st, row, true) == AddBookmark(st, row, false)
  {
    assert RowParts(row)[..0] == [];
    WalkAgrees(Bump(st), RowParts(row), 0, "");
  }

  /** The folder cell "a / b" is kept as it is and has the parts "a " and
      " b". */
  lemma SpacedFolderParts()
    ensures Trim("a / b") == "a / b"
    ensures FolderParts("a / b") == ["a ", " b"]
  {
    SpacedCellTrimmed();
    assert "a / b" == "a " + ['/'] + " b";
    SplitCons("a ", " b", '/');
    SplitNoSep(" b", '/');
    SpacedPartsKept();
  }

  lemma SpacedCellTrimmed()
    ensures Trim("a / b") == "a / b"
  {
    assert !IsWhitespace('a') && !IsWhitespace('b');
    assert TrimStart("a / b") == "a / b";
    assert TrimEnd("a / b") == "a / b";
  }

  lemma SpacedPartsKept()
    ensures NonBlank(["a ", " b"]) == ["a ", " b"]
  {
    assert !IsBlank("a ") by { assert !IsWhitespace("a "[0]); }
    assert !IsBlank(" b") by { assert !IsWhitespace(" b"[1]); }
    assert ["a ", " b"][1..] == [" b"];
    assert NonBlank([" b"]) == [" b"];
  }

  /** A new first-level folder goes on the root list without a parent. */
  lemma CreateRoot(st: Forest, name: string, fid: string, key: string)
    requires fid !in st.folders && fid !in st.roots
    ensures CreateFolder(st, name, fid, key, true)
         == Forest(st.folders[fid := Folder(fid, name, None, [])], st.bookmarks, st.roots + [fid], st.counter)
  {
  }

  /** A new deeper folder whose parent lookup misses gets no parent and is
      attached nowhere. */
  lemma CreateOrphan(st: Forest, name: string, fid: string, key: string)
    requires fid !in st.folders && key !in st.folders && key != fid
    ensures CreateFolder(st, name, fid, key, false)
         == Forest(st.folders[fid := Folder(fid, name, None, [])], st.bookmarks, st.roots, st.counter)
  {
    var folders := st.folders[fid := Folder(fid, name, None, [])];
    assert AddChild(folders, key, fid) == folders;
  }

  /** The first step over two parts: the first-level folder is created on
      the root list. */
  lemma OrphanFirst(st: Forest, parts: seq<string>)
    requires st.folders == map[] && st.roots == [] && |parts| == 2
    ensures FolderStep(st, parts, 0, "", true)
         == Forest(map[FolderId(Trim(parts[0])) := Folder(FolderId(Trim(parts[0])), Trim(parts[0]), None, [])],
                   st.bookmarks, [FolderId(Trim(parts[0]))], st.counter)
  {
    var n0 := Trim(parts[0]);
    assert NextPath("", 0, n0) == n0;
    CreateRoot(st, n0, FolderId(n0), ParentKey(parts, 0, "", true));
  }

  /** The second step as written looks the parent up under the untrimmed
      first part, which names no folder, so the nested folder gets no parent
      and joins no child list. */
  lemma OrphanSecond(st1: Forest, parts: seq<string>)
    requires |parts| == 2 && '/' !in parts[0] && Trim(parts[0]) != parts[0]
    requires st1.folders == map[FolderId(Trim(parts[0])) := Folder(FolderId(Trim(parts[0])), Trim(parts[0]), None, [])]
    ensures var fid := FolderId(Trim(parts[0]) + "/" + Trim(parts[1]));
            (FolderStep(st1, parts, 1, Trim(parts[0]), true)
             == Forest(st1.folders[fid := Folder(fid, Trim(parts[1]), None, [])], st1.bookmarks, st1.roots, st1.counter))
  {
    var n0 := Trim(parts[0]);
    var n1 := Trim(parts[1]);
    var fid := FolderId(n0 + "/" + n1);
    assert parts[..1] == [parts[0]];
    var key := FolderId(parts[0]);
    assert ParentKey(parts, 1, n0, true) == key;
    OrphanIds(parts[0], n0, n1);
    CreateOrphan(st1, n1, fid, key);
  }

  /** The untrimmed key, the stored first-level id and the nested id are
      three different ids. */
  lemma OrphanIds(part: string, n0: string, n1: string)
    requires '/' !in part && n0 != part
    ensures FolderId(part) != FolderId(n0)
    ensures FolderId(part) != FolderId(n0 + "/" + n1)
    ensures FolderId(n0 + "/" + n1) != FolderId(n0)
  {
    var path := n0 + "/" + n1;
    assert path[|n0|] == '/';
    assert FolderId(path)[7..] == path;
  }

  /** The walk as written over two parts whose first is not trimmed, from a
      state without folders. */
  lemma OrphanWalk(st: Forest, parts: seq<string>)
    requires st.folders == map[] && st.roots == []
    requires |parts| == 2 && '/' !in parts[0] && Trim(parts[0]) != parts[0]
    ensures var a := FolderId(Trim(parts[0]));
            var fid := FolderId(Trim(parts[0]) + "/" + Trim(parts[1]));
            (Walk(st, parts, 0, "", true).0
             == Forest(map[a := Folder(a, Trim(parts[0]), None, [])][fid := Folder(fid, Trim(parts[1]), None, [])],
                       st.bookmarks, [a], st.counter))
  {
    var n0 := Trim(parts[0]);
    var st1 := FolderStep(st, parts, 0, "", true);
    OrphanFirst(st, parts);
    OrphanSecond(st1, parts);
    WalkStep(st, parts, 0, "", true);
    assert NextPath("", 0, n0) == n0;
    WalkStep(st1, parts, 1, n0, true);
    var st2 := FolderStep(st1, parts, 1, n0, true);
    assert Walk(st2, parts, 2, NextPath(n0, 1, Trim(parts[1])), true) == (st2, NextPath(n0, 1, Trim(parts[1])));
  }

  lemma Unattached(f: Forest, x: string)
    requires x in f.folders && !Linked(f, x, f.folders[x].parentId)
    ensures !Attached(f)
  {
  }

  /** As written, a folder cell whose first part carries spaces (such as
      "a / b") orphans its second level: that folder is stored as
      `folder_a/b` with no parent, because its parent is looked up as
      `folder_a ` while it was stored as `folder_a`, and it is not on the root
      list, so it and everything under it never reach the returned tree. */
  lemma OrphanedFolder(st: Forest, parts: seq<string>)
    requires st.folders == map[] && st.roots == []
    requires |parts| == 2 && '/' !in parts[0] && Trim(parts[0]) != parts[0]
    ensures var f := Walk(st, parts, 0, "", true).0;
            var fid := FolderId(Trim(parts[0]) + "/" + Trim(parts[1]));
            fid in f.folders && f.folders[fid].parentId == None && !Attached(f)
  {
    OrphanWalk(st, parts);
    var f := Walk(st, parts, 0, "", true).0;
    var n0 := Trim(parts[0]);
    var path := n0 + "/" + Trim(parts[1]);
    assert |FolderId(path)| != |FolderId(n0)|;
    assert f.roots == [FolderId(n0)];
    Unattached(f, FolderId(path));
  }

  /** The cell "a / b" meets the conditions above: its parts are "a " and
      " b", and the first carries a space and no slash. */
  lemma SpacedCellOrphans()
    ensures FolderParts(Trim("a / b")) == ["a ", " b"]
    ensures '/' !in "a " && Trim("a ") != "a "
  {
    SpacedFolderParts();
    SpacedFirstPart();
  }

  lemma SpacedFirstPart()
    ensures '/' !in "a " && Trim("a ") != "a "
  {
    assert IsWhitespace("a "[1]);
  }

  // ---------------------------------------------------------------------------
  // Errors
  // ---------------------------------------------------------------------------

  /** A file of whitespace only is reported as empty. */
  lemma BlankFile(content: string, asWritten: bool)
    requires IsBlank(content)
    ensures ParseCSV(content, asWritten) == Err(ErrorPrefix + EmptyMessage)
  {
    SplitBlank(content, '\n');
    NonBlankOfBlanks(Split(content, '\n'));
  }

  lemma {:induction false} NonBlankOfBlanks(xs: seq<string>)
    requires forall k :: 0 <= k < |xs| ==> IsBlank(xs[k])
    ensures NonBlank(xs) == []
    decreases |xs|
  {
    if |xs| > 0 {
      assert IsBlank(xs[0]);
      NonBlankOfBlanks(xs[1..]);
    }
  }

  /** A header without a title-like column (compared trimmed and
      lower-cased) is refused, whatever the rows hold. */
  lemma MissingTitleColumn(content: string, asWritten: bool)
    requires |NonBlank(Split(content, '\n'))| > 0
    requires var header := HeaderColumns(NonBlank(Split(content, '\n'))[0]);
             forall k :: 0 <= k < |header| ==> header[k] !in TitleNames
    ensures ParseCSV(content, asWritten) == Err(ErrorPrefix + ColumnsMessage)
  {
    var header := HeaderColumns(NonBlank(Split(content, '\n'))[0]);
    assert FindIndex(header, TitleNames) == -1;
  }
}
