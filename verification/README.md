# llm-design-system in Dafny

A model of the logic at the centre of the design-system monorepo:

- **The UI package's Tailwind configuration.** `transformTokens` walks the
  W3C-style token document (`$value` leaves, nested groups). It turns the
  ten colour groups into nested palettes with `transformColor`. Spacing,
  radius, shadow, opacity, zIndex, breakpoint and the four typography scales
  become flat `key → $value` scales; `typography.fontFamily` keeps exactly
  `sans` and `mono`; nothing else in the document is read. The result is wired into
  `theme.extend` under Tailwind's names (`borderRadius`, `boxShadow`,
  `screens`, …).
- **The design-system query server.** This is the `CallToolRequestSchema`
  handler of `mcp/design-system-server.ts`:
  - `list_components`: `getComponents` with its `.tsx`-but-not-`.stories` filter.
  - `get_component`: `readComponent` with the not-found reply.
  - `get_tokens`: projection of one category, falling back to the whole document.
  - `search_components`: case-insensitive substring search.
  - The `catch` that turns every thrown error into an error-flagged reply.
- **The Figma bridge server.** Its three stub tools, its `catch`, and the
  fact that no call ever writes the token document.

Everything is a pure function:

- The token document is a JSON tree (`Json.JValue`). Object members are kept
  in JavaScript's enumeration order. Truthiness, `Object.keys`/`Object.entries`
  and property reads follow JavaScript, including index keys on arrays and
  strings, and throwing on `undefined`/`null`. A string is indexed by
  character (Unicode scalar value), not by UTF-16 code unit.
- The file system is an immutable snapshot (`Storage.Store`): the token
  document or its read error, the components directory listing, and the
  component sources by path.
- Thrown JavaScript errors are `Exceptions.Exception` values carried in a
  `Result`, with V8's messages.
- `JSON.stringify(x, null, 2)` is a parameter `stringify: JValue -> string`
  passed to every handler that serialises. The model never interprets its layout.

Modules: `Wrappers` (Option/Result), `Exceptions`, `Json`, `Strings`,
`Sequences` (filter/map), `Storage`, `Protocol` (request, response, the
`catch`), `TailwindConfig`, `DesignSystemServer`, `FigmaServer`.

### Behaviour worth knowing

- **`transformColor` keeps a `$value` only when it is truthy**, not whenever
  it is present. A token whose `$value` is `""` or `0` is walked into as if it
  were a group.
  - `FalsyValueBecomesGroup`: with no other fields, such a token becomes a
    group holding an empty group.
  - `FalsyValueWithTypeOverflows`: with a `$type` string, the walk recurses
    into that string and overflows the call stack.
- **A non-empty string node never bottoms out.** Its first own property is a
  one-character string whose only property is itself. The model gives the
  `RangeError` V8 throws (`StringRecursionDoesNotShrink`).
- **`get_component` treats an empty file as "not found"** (`!source`), as well
  as a failed read.
- **Only `.tsx` files are listed**, and a name containing `.stories` anywhere
  is excluded.
- **The code never flattens the token document.** There is no flattened token
  table and no flatten/re-nest round trip. `transformColor` keeps the nesting.

## Model

| member | source | states |
|---|---|---|
| Json.Entries | packages/ui/tailwind.config.ts:11 | `Object.keys`/`Object.entries` throws exactly on `undefined`/`null` (with V8's TypeError) and otherwise yields the value's own enumerable properties |
| Json.Get | packages/ui/tailwind.config.ts:12 | a property read throws exactly on `undefined`/`null` and otherwise yields the own property named, or `undefined` |
| Json.Lookup | packages/ui/tailwind.config.ts:12 | a key is found exactly when it is among the entries' keys, and what is found is paired with that key |
| Json.ReadEnumeratedKey | packages/ui/tailwind.config.ts:11-13 | reading `colorObj[key]` for a key `Object.keys` enumerated yields the value `Object.entries` pairs with it, for objects, arrays and strings alike |
| Strings.Includes | mcp/design-system-server.ts:51 | `s.includes(t)` holds exactly when `t` occurs in `s` at some position |
| Strings.EndsWith | mcp/design-system-server.ts:51 | `f.endsWith('.tsx')` holds exactly when `f` is some string followed by `.tsx` |
| Strings.ToLower | mcp/design-system-server.ts:207 | `toLowerCase` leaves no capital letter and changes each character only in its case |
| Strings.ToLowerIdempotent | mcp/design-system-server.ts:207 | lower-casing twice is lower-casing once, and the result has no capital letters |
| Sequences.Filter | mcp/design-system-server.ts:51 | `filter` never lengthens its input; what it keeps is stated by `Sequences.FilterSpec` |
| Sequences.FilterSpec | mcp/design-system-server.ts:51 | `filter` keeps exactly the elements satisfying the predicate, each as many times as it occurs, in order (a subsequence), and keeps everything when everything satisfies it |
| Sequences.Map | mcp/design-system-server.ts:144-147 | `map` yields one result per element; `Sequences.MapFilterCommute` relates it to `filter` |
| Sequences.MapFilterCommute | mcp/design-system-server.ts:209-221 | filtering then projecting equals projecting then filtering, when the filter only looks at what the projection keeps |
| Storage.LoadTokens | mcp/design-system-server.ts:35-39 | `loadTokens` succeeds exactly when the document can be read and parsed, yields it unchanged, and otherwise rejects with the read error |
| Storage.SaveTokens | mcp/figma-server.ts:43-46 | after `saveTokens(doc)` the next `loadTokens` yields `doc`; nothing else in storage changes |
| Storage.ReadSource | mcp/design-system-server.ts:65-75 | `readComponent` yields the contents exactly when the file exists, and `null` otherwise |
| Protocol.Catch | mcp/design-system-server.ts:230-240 | a handler's reply passes through unchanged; a thrown error becomes exactly one text item `Error: <message>` with `isError` set |
| TailwindConfig.TransformColor | packages/ui/tailwind.config.ts:9-19 | the output has exactly the input's keys in the input's order; `null` throws |
| TailwindConfig.TransformEntries | packages/ui/tailwind.config.ts:11-17 | the `forEach` from the `i`-th key on produces exactly the remaining keys, in order |
| TailwindConfig.TransformEntry | packages/ui/tailwind.config.ts:12-16 | reading `$value` of a `null` child throws; a child that is walked into keeps its own keys, in order; the key-by-key meaning is stated by `TailwindConfig.TransformColorEntries` |
| TailwindConfig.TransformEntriesPointwise | packages/ui/tailwind.config.ts:11-17 | every stored entry is what the `if`/`else` computes for that child |
| TailwindConfig.TransformEntriesFailure | packages/ui/tailwind.config.ts:11-17 | the loop throws exactly when some child throws, and then with the first such child's error |
| TailwindConfig.TransformColorEntries | packages/ui/tailwind.config.ts:10-18 | key by key: same key; a truthy `$value` copied verbatim; otherwise the recursive transform of the child, so a falsy `$value` is walked into |
| TailwindConfig.TransformColorFailure | packages/ui/tailwind.config.ts:9-19 | the transform throws exactly on `null`, on a non-empty string, or when some child throws |
| TailwindConfig.StringRecursionDoesNotShrink | packages/ui/tailwind.config.ts:11-15 | a non-empty string's first child is a one-character string whose only child is itself and whose `$value` is falsy, so the recursion does not shrink |
| TailwindConfig.FalsyValueBecomesGroup | packages/ui/tailwind.config.ts:12-15 | `{muted: {$value: ""}}` becomes `{muted: {$value: {}}}`, not `{muted: ""}` |
| TailwindConfig.FalsyValueWithTypeOverflows | packages/ui/tailwind.config.ts:12-15 | `{muted: {$value: 0, $type: "color"}}` overflows the call stack |
| TailwindConfig.ScaleEntries | packages/ui/tailwind.config.ts:35 | the `map` over entries keeps exactly the entries' keys, in order |
| TailwindConfig.ScaleEntriesMeaning | packages/ui/tailwind.config.ts:35 | each key is mapped to its entry's `$value`; the map throws exactly when some entry is `null` |
| TailwindConfig.FlatScale | packages/ui/tailwind.config.ts:34-36 | a flat scale exists only when its group is present and not null, and has exactly the group's keys, each mapped to that entry's `$value`; a missing group throws |
| TailwindConfig.GroupPaletteRead | packages/ui/tailwind.config.ts:23 | a colour group's palette exists only when the group is present and not null, and is `transformColor` of it |
| TailwindConfig.ColorPalette | packages/ui/tailwind.config.ts:22-33 | the colour object has exactly the requested groups as keys, in order |
| TailwindConfig.ColorPaletteEntries | packages/ui/tailwind.config.ts:22-33 | under each group name is that group's palette |
| TailwindConfig.TransformTypography | packages/ui/tailwind.config.ts:40-57 | `sans`/`mono` are the `$value`s of the two font-family tokens, which must exist; the four typography scales are the flat scales of their groups |
| TailwindConfig.TransformTokens | packages/ui/tailwind.config.ts:21-70 | the colour object has exactly the ten groups `primary`…`border`; every category is the transform of the document's category of the same name |
| TailwindConfig.RequiredColorGroups | packages/ui/tailwind.config.ts:23-32 | when the build succeeds, each of the ten colour groups is present and not null |
| TailwindConfig.RequiredCategories | packages/ui/tailwind.config.ts:34-69 | when the build succeeds, every other category read (flat scales, both font families) is present and not null; nothing is defaulted |
| TailwindConfig.Configure | packages/ui/tailwind.config.ts:72-94 | the configuration's `theme.extend` exists exactly when `transformTokens` succeeds and otherwise fails with its error; `TailwindConfig.ExtendWiring` pins each field to its category |
| TailwindConfig.ExtendWiring | packages/ui/tailwind.config.ts:80-93 | `theme.extend` publishes each category unchanged under its Tailwind name (`borderRadius` = radius, `boxShadow` = shadow, `screens` = breakpoint, …), each scale with exactly its group's keys and `$value`s |
| TailwindConfig.ExtendColors | packages/ui/tailwind.config.ts:22-33 | `colors` holds, group by group, `transformColor` of the document's group; other colour groups of the document are dropped |
| DesignSystemServer.CollectComponents | mcp/design-system-server.ts:47-59 | the loop succeeds exactly when no directory's own listing fails |
| DesignSystemServer.CollectComponentsMirrorsDirectories | mcp/design-system-server.ts:47-58 | one component per directory entry, in listing order, named after the directory, listing that directory's component files; non-directories skipped |
| DesignSystemServer.CollectComponentsFirstFailure | mcp/design-system-server.ts:47-50 | a failing loop rejects with the error of the first directory whose listing fails |
| DesignSystemServer.GetComponents | mcp/design-system-server.ts:42-62 | `getComponents` rejects with the components directory's own error when it cannot be listed, and otherwise exactly when some subdirectory cannot be listed |
| DesignSystemServer.ComponentFilesSpec | mcp/design-system-server.ts:51 | a file is kept exactly when it ends in `.tsx` and `.stories` occurs nowhere in it; kept files stay in listing order |
| DesignSystemServer.Dispatch | mcp/design-system-server.ts:137-229 | an unknown tool throws `Unknown tool: <name>`; every answer has one text item; only `get_component` answers with an error flag instead of throwing |
| DesignSystemServer.ListComponents | mcp/design-system-server.ts:138-151 | `list_components` throws exactly what `getComponents` throws, and otherwise answers with one unflagged text item |
| DesignSystemServer.GetComponent | mcp/design-system-server.ts:153-177 | `get_component` throws only without an arguments object; its reply is flagged as an error exactly when the source cannot be read or is empty |
| DesignSystemServer.GetTokens | mcp/design-system-server.ts:179-202 | `get_tokens` throws exactly without an arguments object, on an unreadable token file, or when a category is asked of a `null` document |
| DesignSystemServer.SearchComponents | mcp/design-system-server.ts:204-225 | `search_components` throws without an arguments object, then whatever `getComponents` throws, and only then the TypeError of `query.toLowerCase()` on a missing query |
| DesignSystemServer.CallTool | mcp/design-system-server.ts:133-241 | every call gets exactly one text item; an unknown tool gets `Error: Unknown tool: <name>`; an error-flagged reply is the not-found reply or reads `Error: …` |
| DesignSystemServer.ListComponentsReply | mcp/design-system-server.ts:138-150 | `list_components`, with or without arguments, serialises the components projected to `{name, files}` (path dropped), one per directory, in listing order |
| DesignSystemServer.ListComponentsFailure | mcp/design-system-server.ts:42-62 | a failed listing of the components directory, or else of the first failing subdirectory, becomes `Error: <message>` |
| DesignSystemServer.GetComponentReply | mcp/design-system-server.ts:153-177 | `get_component` answers with `<name>/<name>.tsx` verbatim when it exists and is non-empty, otherwise `Component "<name>" not found` flagged as an error |
| DesignSystemServer.GetTokensReply | mcp/design-system-server.ts:179-202 | `get_tokens` answers `{[category]: subtree}` exactly when the category is non-empty and its subtree truthy, and the whole document otherwise (a `null` document included); the only error is a non-empty category asked of a `null` document, which reads `Error: Cannot read properties of null (reading '<category>')` |
| DesignSystemServer.GetTokensUnknownCategory | mcp/design-system-server.ts:183-201 | with any arguments whose `category` the document lacks, the answer falls back to the whole document |
| DesignSystemServer.GetTokensFailure | mcp/design-system-server.ts:180-181 | a missing arguments object, or an unreadable token file, becomes `Error: <message>` |
| DesignSystemServer.SearchComponentsReply | mcp/design-system-server.ts:204-225 | `search_components` with any arguments whose `query` is a string serialises the search results for that query |
| DesignSystemServer.SearchComponentsFailure | mcp/design-system-server.ts:204-207 | a missing arguments object, then a listing failure, then a missing query becomes `Error: <message>`, in that order of precedence |
| DesignSystemServer.SearchIsFilteredList | mcp/design-system-server.ts:209-221 | the results are the `list_components` summaries filtered by the lower-cased query: a subsequence of them, containing every match and only matches |
| DesignSystemServer.EmptyQueryReturnsAll | mcp/design-system-server.ts:207-212 | the empty query returns every component |
| DesignSystemServer.SearchIgnoresQueryCase | mcp/design-system-server.ts:207 | the query's case does not matter |
| DesignSystemServer.StoriesAreNotListed | mcp/design-system-server.ts:51 | `button.tsx` is listed and `button.stories.tsx` is not |
| DesignSystemServer.ListingExample | mcp/design-system-server.ts:47-58 | `button/` (with a story), a stray file and `dialog/` list as `button: [button.tsx]`, `dialog: [dialog.tsx]` |
| DesignSystemServer.SearchTabExample | mcp/design-system-server.ts:207-212 | searching `tab` among `button`, `tabs`, `input` returns `tabs` only |
| FigmaServer.CallTool | mcp/figma-server.ts:94-160 | every call gets exactly one text item and leaves the store unchanged; the reply is an error exactly for an unknown tool or an unreadable token file on a tool that reads it |
| FigmaServer.Handle | mcp/figma-server.ts:98-148 | no case changes the store; a case throws exactly for an unknown tool or an unreadable token file on a tool that reads it, and otherwise answers with one unflagged text item |
| FigmaServer.GetFigmaTokensReply | mcp/figma-server.ts:99-110 | `get_figma_tokens` answers with the serialised local document, or the read error |
| FigmaServer.SyncFromFigmaReply | mcp/figma-server.ts:112-127 | `sync_tokens_from_figma` answers with its fixed text, even when the token file is unreadable |
| FigmaServer.SyncToFigmaReply | mcp/figma-server.ts:129-144 | `sync_tokens_to_figma` answers with `Tokens ready to sync to Figma:` and a newline before the serialised document, or the read error |
| FigmaServer.UnknownToolReply | mcp/figma-server.ts:146-158 | an unknown name gets `Error: Unknown tool: <name>` flagged as an error |
| FigmaServer.ServeNeverWrites | mcp/figma-server.ts:94-160 | across any sequence of calls the token store never changes, so each call is answered as it would be alone |
| FigmaServer.SaveTokensWouldBeObservable | mcp/figma-server.ts:43-46 | a write would be visible to the next `get_figma_tokens`, which is why the unchanged store above is a real property |

## Left out

- The MCP SDK (`Server`, `StdioServerTransport`), the `ListToolsRequestSchema` catalogues, `main` and `process.exit`. They are transport plumbing and static metadata.
- `fs`, `path.join` and `__dirname`. Storage is a snapshot of what the calls would see. Paths are keyed relative to the components directory without `path.join`'s normalisation, so a component name containing `..` or `/` is not resolved the way the operating system would.
- Asynchrony. Each handler is modelled as running to completion against one snapshot, so concurrent file changes are out of scope.
- The layout of `JSON.stringify(x, null, 2)`. It is a parameter, so nothing is claimed about indentation or number formatting.
- `Json.Entries`: a string's own properties are its characters (Unicode scalar values), not its UTF-16 code units as `Object.keys` and `Object.entries` give them, so a string holding a character outside the Basic Multilingual Plane has fewer index keys in the model. Dafny strings have no code-unit view.
- `Json.Get`: an index read on a string uses the same character indexing, so `"😀"["1"]` is `undefined` in the model where JavaScript yields a lone surrogate.
- `TailwindConfig.TransformColor`: `result[key] = …` with the key `__proto__` calls the prototype setter in JavaScript, so the output would have no own `__proto__` key; the model stores it as an ordinary key.
- `TailwindConfig.TransformColorFailure`: the model's recursion has no depth limit. Only the never-terminating walk into a non-empty string yields `StackOverflow`; a document nested deeply enough to exhaust V8's finite call stack (each level costs a `transformColor`, a `forEach` and an arrow-function frame) throws `RangeError` in JavaScript but succeeds in the model.
- The prototype chain. Property reads see own properties only. A category named `constructor`, `toString` or `__proto__` is therefore modelled as absent, where JavaScript would find an inherited value. The `length` property of arrays and strings is also not modelled.
- Tool arguments other than strings (numbers, objects) are not modelled. An absent arguments object and absent arguments are.
- `Strings.ToLower`: lower-cases ASCII capitals only, not the full Unicode case mapping of `toLowerCase`.
- Exception messages follow V8's wording. Other engines word them differently.
- `JSON.parse` and the token file's contents. The document is given already parsed, and `Json.ReadEnumeratedKey` assumes objects list each key once, as `JSON.parse` guarantees.
- The build-time import of `tokens.json` (`tokensData`) and `content`/`plugins` of the Tailwind config are static data.
- The React components, stories, Storybook preview, the Tailwind preset, tsup configuration, index re-exports and the Style Dictionary build script: presentation, configuration data or calls into code that is not part of this model.
