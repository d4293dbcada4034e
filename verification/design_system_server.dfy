/** The design-system query server: the `CallToolRequestSchema` handler of
    `mcp/design-system-server.ts` as a pure function of the storage snapshot
    and the request. `JSON.stringify(x, null, 2)` is the `stringify`
    parameter, whose layout is left uninterpreted. */
module DesignSystemServer {
  import opened Wrappers
  import opened Exceptions
  import opened Json
  import opened Strings
  import opened Sequences
  import opened Storage
  import opened Protocol

  /** The components directory, relative to the server's own directory. */
  const ComponentsDir: string := "../packages/ui/src/components"

  /** The tools this server answers. */
  const Tools: seq<string> := ["list_components", "get_component", "get_tokens", "search_components"]

  /** An element of what `getComponents` returns. */
  datatype Component = Component(name: string, path: string, files: seq<string>)

  /** `{ name, files }`: a component as the tools report it. */
  datatype Summary = Summary(name: string, files: seq<string>)

  // ---------------------------------------------------------------------
  // getComponents
  // ---------------------------------------------------------------------

  /** `f.endsWith('.tsx') && !f.includes('.stories')`. */
  predicate IsComponentFile(f: string)
  {
    EndsWith(f, ".tsx") && !Includes(f, ".stories")
  }

  /** The files of a component directory that `getComponents` keeps. */
  function ComponentFiles(names: seq<string>): seq<string>
  {
    Filter(names, IsComponentFile)
  }

  predicate IsDirectory(e: DirEntry)
  {
    e.isDirectory
  }

  /** The entries of the components directory that are directories, in order. */
  function Directories(entries: seq<DirEntry>): seq<DirEntry>
  {
    Filter(entries, IsDirectory)
  }

  /** A directory whose own `readdir` rejects. */
  predicate FailedListing(e: DirEntry)
  {
    e.isDirectory && e.listing.Failure?
  }

  /** The component that a readable directory entry describes. */
  function Describe(e: DirEntry): Component
    requires e.listing.Success?
  {
    Component(e.name, ComponentsDir + "/" + e.name, ComponentFiles(e.listing.value))
  }

  /** The `for` loop of `getComponents`: one component per directory entry, in
      listing order, skipping entries that are not directories; the first
      directory whose listing fails aborts the loop with that error. */
  function CollectComponents(entries: seq<DirEntry>): (r: Result<seq<Component>, Exception>)
    ensures r.Success? <==> forall i :: 0 <= i < |entries| ==> !FailedListing(entries[i])
    decreases |entries|
  {
    if |entries| == 0 then Success([])
    else if FailedListing(entries[0]) then Failure(Error(entries[0].listing.error))
    else
      assert forall i :: 1 <= i < |entries| ==> entries[i] == entries[1..][i - 1];
      var rest :- CollectComponents(entries[1..]);
      if entries[0].isDirectory then Success([Describe(entries[0])] + rest) else Success(rest)
  }

  /** One step of the loop: the first entry, then the rest. */
  lemma CollectComponentsStep(entries: seq<DirEntry>)
    requires |entries| > 0
    ensures var rest := CollectComponents(entries[1..]);
      CollectComponents(entries) ==
        if FailedListing(entries[0]) then Failure(Error(entries[0].listing.error))
        else if rest.Failure? then rest
        else if entries[0].isDirectory then Success([Describe(entries[0])] + rest.value)
        else rest
  {
  }

  /** When every listing succeeds, the components are the directories, in
      order, each described by its own listing. */
  lemma {:induction false} CollectComponentsMirrorsDirectories(entries: seq<DirEntry>)
    requires CollectComponents(entries).Success?
    ensures var components := CollectComponents(entries).value;
      && |components| == |Directories(entries)|
      && forall i :: 0 <= i < |components| ==>
           Directories(entries)[i].listing.Success? && components[i] == Describe(Directories(entries)[i])
    decreases |entries|
  {
    if |entries| > 0 {
      assert !FailedListing(entries[0]);
      assert forall i :: 1 <= i < |entries| ==> entries[i] == entries[1..][i - 1];
      CollectComponentsMirrorsDirectories(entries[1..]);
      if entries[0].isDirectory {
        assert Directories(entries) == [entries[0]] + Directories(entries[1..]);
      } else {
        assert Directories(entries) == Directories(entries[1..]);
      }
    }
  }

  /** When some listing fails, the loop fails with the error of the first
      directory whose listing fails. */
  lemma {:induction false} CollectComponentsFirstFailure(entries: seq<DirEntry>)
    requires CollectComponents(entries).Failure?
    ensures exists i ::
      && 0 <= i < |entries| && FailedListing(entries[i])
      && CollectComponents(entries).error == Error(entries[i].listing.error)
      && forall j :: 0 <= j < i ==> !FailedListing(entries[j])
    decreases |entries|
  {
    if !FailedListing(entries[0]) {
      CollectComponentsFirstFailure(entries[1..]);
      var i :| 0 <= i < |entries[1..]| && FailedListing(entries[1..][i])
        && CollectComponents(entries[1..]).error == Error(entries[1..][i].listing.error)
        && forall j :: 0 <= j < i ==> !FailedListing(entries[1..][j]);
      assert entries[i + 1] == entries[1..][i];
      assert forall j :: 1 <= j < i + 1 ==> entries[j] == entries[1..][j - 1];
    }
  }

  /** `getComponents()`: rejects with the components directory's own error
      when it cannot be listed, and otherwise exactly when some subdirectory
      cannot be listed. */
  function GetComponents(store: Store): (r: Result<seq<Component>, Exception>)
    ensures store.components.Failure? ==> r == Failure(Error(store.components.error))
    ensures store.components.Success? ==>
      (r.Success? <==> forall i :: 0 <= i < |store.components.value| ==> !FailedListing(store.components.value[i]))
  {
    match store.components
    case Failure(message) => Failure(Error(message))
    case Success(entries) => CollectComponents(entries)
  }

  /** `c => ({ name: c.name, files: c.files })`: the path is dropped. */
  function Summarize(c: Component): Summary
  {
    Summary(c.name, c.files)
  }

  function SummaryJson(s: Summary): JValue
  {
    JObj([("name", JStr(s.name)), ("files", JArr(Map(s.files, (f: string) => JStr(f))))])
  }

  /** The array that `list_components` and `search_components` serialise. */
  function SummariesJson(summaries: seq<Summary>): JValue
  {
    JArr(Map(summaries, SummaryJson))
  }

  // ---------------------------------------------------------------------
  // Search
  // ---------------------------------------------------------------------

  /** The filter of `search_components`: the lower-cased name, or some
      lower-cased file name, contains the lower-cased query. */
  predicate Matches(c: Component, queryLower: string)
  {
    || Includes(ToLower(c.name), queryLower)
    || exists i :: 0 <= i < |c.files| && Includes(ToLower(c.files[i]), queryLower)
  }

  /** The same filter read off a summary, which keeps everything it looks at. */
  predicate SummaryMatches(s: Summary, queryLower: string)
  {
    || Includes(ToLower(s.name), queryLower)
    || exists i :: 0 <= i < |s.files| && Includes(ToLower(s.files[i]), queryLower)
  }

  /** `components.filter(...)` then `.map(...)`, as `search_components` does. */
  function SearchResults(components: seq<Component>, query: string): seq<Summary>
  {
    Map(Filter(components, (c: Component) => Matches(c, ToLower(query))), Summarize)
  }

  // ---------------------------------------------------------------------
  // The tool handlers and the switch
  // ---------------------------------------------------------------------

  /** `list_components`: throws exactly what `getComponents` throws, and
      otherwise answers with one text item that is not an error. */
  function ListComponents(store: Store, stringify: JValue -> string): (r: Result<Response, Exception>)
    ensures r.Success? <==> GetComponents(store).Success?
    ensures r.Failure? ==> r.error == GetComponents(store).error
    ensures r.Success? ==> |r.value.content| == 1 && !r.value.isError
  {
    var components :- GetComponents(store);
    Success(Reply(stringify(SummariesJson(Map(components, Summarize)))))
  }

  /** `${name}/${name}.tsx`, relative to the components directory. */
  function SourcePath(name: string): string
  {
    name + "/" + name + ".tsx"
  }

  function NotFound(name: string): string
  {
    "Component \"" + name + "\" not found"
  }

  /** `get_component`: throws only when there is no arguments object; answers
      with one text item, flagged as an error exactly when the component's
      source cannot be read or is empty. */
  function GetComponent(store: Store, args: Option<map<string, string>>): (r: Result<Response, Exception>)
    ensures r.Failure? <==> args.None?
    ensures r.Success? ==>
      var path := SourcePath(Interpolate(Argument(args.value, "componentName")));
      && |r.value.content| == 1
      && (r.value.isError <==> path !in store.sources || store.sources[path] == "")
  {
    if args.None? then Failure(DestructureUndefined("componentName"))
    else
      var name := Interpolate(Argument(args.value, "componentName"));
      var source := ReadSource(store, SourcePath(name));
      if source.None? || source.value == "" then Success(ErrorReply(NotFound(name)))
      else Success(Reply(source.value))
  }

  /** `get_tokens`: throws when there is no arguments object, when the token
      file cannot be read, or when a category is asked of a `null` document;
      otherwise answers with one text item that is not an error. */
  function GetTokens(store: Store, args: Option<map<string, string>>, stringify: JValue -> string): (r: Result<Response, Exception>)
    ensures r.Failure? <==>
      || args.None?
      || store.tokens.Failure?
      || (store.tokens.value.JNull? && Argument(args.value, "category").Some? && Argument(args.value, "category").value != "")
    ensures r.Success? ==> |r.value.content| == 1 && !r.value.isError
  {
    if args.None? then Failure(DestructureUndefined("category"))
    else
      var tokens :- LoadTokens(store);
      var category := Argument(args.value, "category");
      if category.Some? && category.value != "" then
        var subtree :- Get(Some(tokens), category.value);
        if Truthy(subtree) then Success(Reply(stringify(JObj([(category.value, subtree.value)]))))
        else Success(Reply(stringify(tokens)))
      else Success(Reply(stringify(tokens)))
  }

  /** `search_components`: throws when there is no arguments object, then
      whatever `getComponents` throws, and only then the TypeError of
      `query.toLowerCase()` on a missing query; otherwise answers with one
      text item that is not an error. */
  function SearchComponents(store: Store, args: Option<map<string, string>>, stringify: JValue -> string): (r: Result<Response, Exception>)
    ensures r.Failure? <==> args.None? || GetComponents(store).Failure? || Argument(args.value, "query").None?
    ensures args.Some? && GetComponents(store).Failure? ==> r.error == GetComponents(store).error
    ensures args.Some? && GetComponents(store).Success? && Argument(args.value, "query").None? ==>
      r.error == ReadOfNullish(false, "toLowerCase")
    ensures r.Success? ==> |r.value.content| == 1 && !r.value.isError
  {
    if args.None? then Failure(DestructureUndefined("query"))
    else
      var components :- GetComponents(store);
      var query := Argument(args.value, "query");
      if query.None? then Failure(ReadOfNullish(false, "toLowerCase"))
      else Success(Reply(stringify(SummariesJson(SearchResults(components, query.value)))))
  }

  /** The `switch (name)` inside the `try`: an unknown name throws
      `Unknown tool: <name>`, every answer has one text item, and only
      `get_component` answers with an error flag instead of throwing. */
  function Dispatch(store: Store, request: Request, stringify: JValue -> string): (r: Result<Response, Exception>)
    ensures request.name !in Tools ==> r == Failure(Error("Unknown tool: " + request.name))
    ensures r.Success? ==> |r.value.content| == 1
    ensures r.Success? && r.value.isError ==> request.name == "get_component"
  {
    if request.name == "list_components" then ListComponents(store, stringify)
    else if request.name == "get_component" then GetComponent(store, request.arguments)
    else if request.name == "get_tokens" then GetTokens(store, request.arguments, stringify)
    else if request.name == "search_components" then SearchComponents(store, request.arguments, stringify)
    else Failure(Error("Unknown tool: " + request.name))
  }

  /** The `CallToolRequestSchema` handler: every call is answered with exactly
      one text item; nothing is thrown past it. An unknown tool name is
      answered with `Error: Unknown tool: <name>`, flagged as an error. */
  function CallTool(store: Store, request: Request, stringify: JValue -> string): (r: Response)
    ensures |r.content| == 1
    ensures request.name !in Tools ==> r == ErrorReply("Error: Unknown tool: " + request.name)
    ensures r.isError ==>
      || (request.name == "get_component" && request.arguments.Some?
          && TextOf(r) == NotFound(Interpolate(Argument(request.arguments.value, "componentName"))))
      || (|TextOf(r)| >= 7 && TextOf(r)[..7] == "Error: ")
  {
    assert "Error: " + ("Unknown tool: " + request.name) == "Error: Unknown tool: " + request.name;
    Catch(Dispatch(store, request, stringify))
  }

  // ---------------------------------------------------------------------
  // Properties of the tools
  // ---------------------------------------------------------------------

  /** The summaries `list_components` reports for a directory listing: one per
      directory entry, in listing order, named after the directory, with the
      directory's `.tsx` files other than stories. */
  predicate DescribesListing(summaries: seq<Summary>, entries: seq<DirEntry>)
  {
    && |summaries| == |Directories(entries)|
    && forall i :: 0 <= i < |summaries| ==>
         && Directories(entries)[i].listing.Success?
         && summaries[i].name == Directories(entries)[i].name
         && summaries[i].files == ComponentFiles(Directories(entries)[i].listing.value)
  }

  /** `list_components` reports the readable components directory as the
      serialised summaries of its subdirectories, whatever arguments the call
      carries. */
  lemma ListComponentsReply(store: Store, args: Option<map<string, string>>, stringify: JValue -> string)
    requires store.components.Success?
    requires forall i :: 0 <= i < |store.components.value| ==> !FailedListing(store.components.value[i])
    ensures var summaries := Map(GetComponents(store).value, Summarize);
      && CallTool(store, Request("list_components", args), stringify) == Reply(stringify(SummariesJson(summaries)))
      && DescribesListing(summaries, store.components.value)
  {
    var entries := store.components.value;
    CollectComponentsMirrorsDirectories(entries);
    var components := CollectComponents(entries).value;
    var summaries := Map(components, Summarize);
    forall i | 0 <= i < |summaries|
      ensures summaries[i] == Summarize(Describe(Directories(entries)[i]))
    {
      assert summaries[i] == Summarize(components[i]);
    }
  }

  /** `list_components` fails with the error of the first listing that fails:
      the components directory itself, or else the first subdirectory. */
  lemma ListComponentsFailure(store: Store, args: Option<map<string, string>>, stringify: JValue -> string)
    requires store.components.Failure? || exists i :: 0 <= i < |store.components.value| && FailedListing(store.components.value[i])
    ensures var r := CallTool(store, Request("list_components", args), stringify);
      && r.isError
      && (store.components.Failure? ==> TextOf(r) == "Error: " + store.components.error)
      && (store.components.Success? ==>
            exists i :: 0 <= i < |store.components.value|
              && FailedListing(store.components.value[i])
              && TextOf(r) == "Error: " + store.components.value[i].listing.error
              && forall j :: 0 <= j < i ==> !FailedListing(store.components.value[j]))
  {
    if store.components.Success? {
      CollectComponentsFirstFailure(store.components.value);
    }
  }

  /** A file is listed exactly when its name ends in `.tsx` and `.stories`
      occurs nowhere in it, and listed files keep their directory order. */
  lemma ComponentFilesSpec(names: seq<string>)
    ensures forall i :: 0 <= i < |names| ==>
      (names[i] in ComponentFiles(names) <==>
         EndsWith(names[i], ".tsx") && !exists k :: OccursAt(names[i], ".stories", k))
    ensures IsSubsequence(ComponentFiles(names), names)
  {
    FilterShape(names, IsComponentFile);
    forall i | 0 <= i < |names|
      ensures names[i] in ComponentFiles(names) ==> IsComponentFile(names[i])
    {
      if names[i] in ComponentFiles(names) {
        var k :| 0 <= k < |ComponentFiles(names)| && ComponentFiles(names)[k] == names[i];
      }
    }
  }

  /** `get_component` answers with the file `<name>/<name>.tsx` verbatim when it
      can be read and is not empty, and otherwise with
      `Component "<name>" not found` flagged as an error. */
  lemma GetComponentReply(store: Store, args: map<string, string>, stringify: JValue -> string)
    ensures var name := Interpolate(Argument(args, "componentName"));
      var r := CallTool(store, Request("get_component", Some(args)), stringify);
      && (SourcePath(name) in store.sources && store.sources[SourcePath(name)] != "" ==>
            r == Reply(store.sources[SourcePath(name)]))
      && (SourcePath(name) !in store.sources || store.sources[SourcePath(name)] == "" ==>
            r == ErrorReply("Component \"" + name + "\" not found"))
  {
  }

  /** `get_tokens` projects the document to `{ [category]: subtree }` exactly
      when the category is non-empty and its subtree is truthy, and answers
      with the whole document otherwise, `null` included; only a non-empty
      category asked of a `null` document is an error, the TypeError of
      reading a property of `null`. */
  lemma GetTokensReply(store: Store, args: map<string, string>, stringify: JValue -> string)
    requires store.tokens.Success?
    ensures var doc := store.tokens.value;
      var category := Argument(args, "category");
      var asked := category.Some? && category.value != "";
      var r := CallTool(store, Request("get_tokens", Some(args)), stringify);
      && (r.isError <==> asked && doc.JNull?)
      && (asked && doc.JNull? ==> r == ErrorReply("Error: " + ReadOfNullish(true, category.value).message))
      && (asked && Truthy(Lookup(OwnProperties(doc), category.value)) ==>
            r == Reply(stringify(JObj([(category.value, Lookup(OwnProperties(doc), category.value).value)]))))
      && (!asked || (!doc.JNull? && !Truthy(Lookup(OwnProperties(doc), category.value))) ==>
            r == Reply(stringify(doc)))
  {
  }

  /** A category the document's top level does not have falls back to the
      whole document rather than an error. */
  lemma GetTokensUnknownCategory(store: Store, args: map<string, string>, category: string, stringify: JValue -> string)
    requires store.tokens.Success? && store.tokens.value.JObj?
    requires Argument(args, "category") == Some(category)
    requires category !in Keys(store.tokens.value.members)
    ensures CallTool(store, Request("get_tokens", Some(args)), stringify) == Reply(stringify(store.tokens.value))
  {
  }

  /** Every tool that reads the token document reports a failed read as an
      error-flagged `Error: <message>`, and so does a missing arguments object. */
  lemma GetTokensFailure(store: Store, args: Option<map<string, string>>, stringify: JValue -> string)
    requires store.tokens.Failure? || args.None?
    ensures var r := CallTool(store, Request("get_tokens", args), stringify);
      && r.isError
      && (args.None? ==> TextOf(r) == "Error: " + DestructureUndefined("category").message)
      && (args.Some? ==> TextOf(r) == "Error: " + store.tokens.error)
  {
  }

  /** `search_components` answers with the serialised search results. */
  lemma SearchComponentsReply(store: Store, args: map<string, string>, query: string, stringify: JValue -> string)
    requires GetComponents(store).Success?
    requires Argument(args, "query") == Some(query)
    ensures CallTool(store, Request("search_components", Some(args)), stringify)
         == Reply(stringify(SummariesJson(SearchResults(GetComponents(store).value, query))))
  {
  }

  /** `search_components` reports a missing arguments object first, then a
      components directory or subdirectory that cannot be listed, and only
      then the TypeError of `query.toLowerCase()` on a missing query. */
  lemma SearchComponentsFailure(store: Store, args: Option<map<string, string>>, stringify: JValue -> string)
    requires args.None? || GetComponents(store).Failure? || Argument(args.value, "query").None?
    ensures var r := CallTool(store, Request("search_components", args), stringify);
      && r.isError
      && (args.None? ==> TextOf(r) == "Error: " + DestructureUndefined("query").message)
      && (args.Some? && GetComponents(store).Failure? ==>
            TextOf(r) == "Error: " + GetComponents(store).error.message)
      && (args.Some? && GetComponents(store).Success? ==>
            TextOf(r) == "Error: " + ReadOfNullish(false, "toLowerCase").message)
  {
  }

  /** Searching is filtering the `list_components` summaries: the results are
      an order-preserving subsequence of them, and a summary is among the
      results exactly when it matches the lower-cased query. */
  lemma SearchIsFilteredList(components: seq<Component>, query: string)
    ensures SearchResults(components, query)
         == Filter(Map(components, Summarize), (s: Summary) => SummaryMatches(s, ToLower(query)))
    ensures IsSubsequence(SearchResults(components, query), Map(components, Summarize))
    ensures forall i :: 0 <= i < |components| && Matches(components[i], ToLower(query)) ==>
      Summarize(components[i]) in SearchResults(components, query)
    ensures forall s :: s in SearchResults(components, query) ==>
      s in Map(components, Summarize) && SummaryMatches(s, ToLower(query))
  {
    var p := (c: Component) => Matches(c, ToLower(query));
    var q := (s: Summary) => SummaryMatches(s, ToLower(query));
    MapFilterCommute(components, Summarize, p, q);
    var listed := Map(components, Summarize);
    FilterShape(listed, q);
    forall i | 0 <= i < |components| && Matches(components[i], ToLower(query))
      ensures Summarize(components[i]) in SearchResults(components, query)
    {
      assert listed[i] == Summarize(components[i]) && q(listed[i]);
    }
    forall s | s in SearchResults(components, query)
      ensures s in listed && SummaryMatches(s, ToLower(query))
    {
      var k :| 0 <= k < |SearchResults(components, query)| && SearchResults(components, query)[k] == s;
      assert q(s);
    }
  }

  /** An empty query matches every component, so it returns all of them. */
  lemma EmptyQueryReturnsAll(components: seq<Component>)
    ensures SearchResults(components, "") == Map(components, Summarize)
  {
    assert ToLower("") == "";
    forall i | 0 <= i < |components|
      ensures Matches(components[i], "")
    {
      assert OccursAt(ToLower(components[i].name), "", 0);
    }
    FilterShape(components, (c: Component) => Matches(c, ToLower("")));
  }

  /** The search ignores the case of the query: lower-casing it first changes nothing. */
  lemma SearchIgnoresQueryCase(components: seq<Component>, query: string)
    ensures SearchResults(components, ToLower(query)) == SearchResults(components, query)
  {
    ToLowerIdempotent(query);
  }

  /** A directory holding `button.tsx` and `button.stories.tsx` is listed
      with `button.tsx` only. */
  lemma StoriesAreNotListed()
    ensures ComponentFiles(["button.tsx", "button.stories.tsx"]) == ["button.tsx"]
  {
    assert IsComponentFile("button.tsx") by {
      assert "button.tsx"[6..] == ".tsx";
      AbsentCharacter("button.tsx", ".stories", 'r');
    }
    assert !IsComponentFile("button.stories.tsx") by {
      assert OccursAt("button.stories.tsx", ".stories", 6);
    }
    assert ["button.tsx", "button.stories.tsx"][1..] == ["button.stories.tsx"];
  }

  /** `dialog.tsx` alone is listed as is. */
  lemma DialogFilesListed()
    ensures ComponentFiles(["dialog.tsx"]) == ["dialog.tsx"]
  {
    assert "dialog.tsx"[6..] == ".tsx";
    AbsentCharacter("dialog.tsx", ".stories", 'r');
    assert ["dialog.tsx"][1..] == [];
  }

  /** Two readable directories around a plain file: the file is skipped,
      whether or not it could be listed. */
  lemma ListingExampleComponents(button: DirEntry, readme: DirEntry, dialog: DirEntry)
    requires button.isDirectory && button.listing.Success?
    requires !readme.isDirectory
    requires dialog.isDirectory && dialog.listing.Success?
    ensures CollectComponents([button, readme, dialog]) == Success([Describe(button), Describe(dialog)])
  {
    assert [dialog][1..] == [];
    CollectComponentsStep([dialog]);
    assert [Describe(dialog)] + [] == [Describe(dialog)];
    assert [readme, dialog][1..] == [dialog];
    CollectComponentsStep([readme, dialog]);
    assert [button, readme, dialog][1..] == [readme, dialog];
    CollectComponentsStep([button, readme, dialog]);
    assert [Describe(button)] + [Describe(dialog)] == [Describe(button), Describe(dialog)];
  }

  /** A components directory holding `button/` (with `button.tsx` and
      `button.stories.tsx`), a stray file, and `dialog/` (with `dialog.tsx`)
      is listed as `button` with `button.tsx`, then `dialog` with `dialog.tsx`. */
  lemma ListingExample()
    ensures var entries := [
          DirEntry("button", true, Success(["button.tsx", "button.stories.tsx"])),
          DirEntry("README.md", false, Failure("ENOTDIR")),
          DirEntry("dialog", true, Success(["dialog.tsx"]))];
      && CollectComponents(entries).Success?
      && Map(CollectComponents(entries).value, Summarize)
         == [Summary("button", ["button.tsx"]), Summary("dialog", ["dialog.tsx"])]
  {
    var button := DirEntry("button", true, Success(["button.tsx", "button.stories.tsx"]));
    var readme := DirEntry("README.md", false, Failure("ENOTDIR"));
    var dialog := DirEntry("dialog", true, Success(["dialog.tsx"]));
    ListingExampleComponents(button, readme, dialog);
    StoriesAreNotListed();
    DialogFilesListed();
    var components := [Describe(button), Describe(dialog)];
    assert components[1..] == [Describe(dialog)];
    assert Map(components, Summarize) == [Summarize(Describe(button))] + Map([Describe(dialog)], Summarize);
  }

  /** A component none of whose lower-cased names has some character of the
      lower-cased query does not match it. */
  lemma NoMatchWithoutCharacter(c: Component, queryLower: string, ch: char)
    requires ch in queryLower && ch !in ToLower(c.name)
    requires forall i :: 0 <= i < |c.files| ==> ch !in ToLower(c.files[i])
    ensures !Matches(c, queryLower)
  {
  }

  /** `tabs` matches `tab` by its name. */
  lemma TabsMatchesTab(tabs: Component)
    requires tabs.name == "tabs"
    ensures Matches(tabs, "tab")
  {
  }

  /** A component `<n>` listing only `<n>.tsx`, where `<n>` has no capital
      letter and no `a`, does not match `tab`. */
  lemma MissesTab(c: Component)
    requires |c.files| == 1 && c.files[0] == c.name + ".tsx"
    requires forall i :: 0 <= i < |c.name| ==> !('A' <= c.name[i] <= 'Z') && c.name[i] != 'a'
    ensures !Matches(c, "tab")
  {
    var file := c.files[0];
    assert forall i :: |c.name| <= i < |file| ==> file[i] == ".tsx"[i - |c.name|];
    ToLowerWithoutCapitals(c.name);
    ToLowerWithoutCapitals(file);
    NoMatchWithoutCharacter(c, "tab", 'a');
  }

  /** Searching `tab` among `button`, `tabs` and `input` finds `tabs` only. */
  lemma SearchTabExample()
    ensures SearchResults(
              [Component("button", ComponentsDir + "/button", ["button.tsx"]),
               Component("tabs", ComponentsDir + "/tabs", ["tabs.tsx"]),
               Component("input", ComponentsDir + "/input", ["input.tsx"])], "tab")
         == [Summary("tabs", ["tabs.tsx"])]
  {
    var button := Component("button", ComponentsDir + "/button", ["button.tsx"]);
    var tabs := Component("tabs", ComponentsDir + "/tabs", ["tabs.tsx"]);
    var input := Component("input", ComponentsDir + "/input", ["input.tsx"]);
    ToLowerWithoutCapitals("tab");
    TabsMatchesTab(tabs);
    MissesTab(button);
    MissesTab(input);
    var cs := [button, tabs, input];
    var p := (c: Component) => Matches(c, ToLower("tab"));
    assert Filter([input], p) == [] by {
      assert [input][1..] == [];
    }
    assert Filter([tabs, input], p) == [tabs] by {
      assert [tabs, input][1..] == [input];
    }
    assert Filter(cs, p) == [tabs] by {
      assert cs[1..] == [tabs, input];
    }
    assert Map([tabs], Summarize) == [Summary("tabs", ["tabs.tsx"])] by {
      assert [tabs][1..] == [];
    }
  }
}
