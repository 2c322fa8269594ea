# Changelog page: a Dafny model

This project models `changelog.js`, the script that fills a web page's
changelog. On page load it reads a manifest (`versions-index.json`) that
lists version files. It then fetches every listed file (`versions/<name>`)
and keeps the files that loaded, in manifest order. Finally it renders one
`div.version-block` per version into the element `#changelog-container`.

Modules:

- `Records` (records.dfy) holds the manifest, version records, update items
  and fetch outcomes. A fetch yields one of three things: a transport
  failure, a response whose status is not ok, or a response whose body
  parses to a value, to `null`, or to nothing (not JSON).
- `Fetch` (fetch.dfy) holds `fetchVersionsIndex`, `fetchVersionData`, the
  `Promise.all` map and the `null` filter of `fetchAllVersions`. The
  network is a parameter: a function from relative path to outcome.
- `Markup` (markup.dfy) holds `getTagText` and the block and item templates.
  The templates are reproduced character for character, indentation
  included. Fields are interpolated verbatim, with no escaping.
- `ReadBack` (readback.dfy) is a reader for the block markup. It checks
  every fixed piece of the template, and checks that a tag span's text is
  the label of the type in its class. On records whose fields carry no
  markup it is the template's inverse, which is the partner property of
  the renderer: such a block determines its record.
- `Render` (render.dfy) holds the document and the container as classes,
  `renderChangelog` as a method with a loop, and the load handler.

Two behaviours of the code are kept:

- A version file whose JSON is the literal `null` is dropped, exactly as
  if it had failed. `fetchVersionData` returns the parsed value as it is.
- A manifest whose JSON is `null` gives the empty list. Reading
  `versionFiles` of `null` throws inside the `try`.

An update's `type` is tested for truthiness. So an empty type shows no
span, exactly like a missing one. `ReadBack.Shown` records that the
markup cannot tell the two apart.

Since nothing is escaped, text that contains markup can imitate structure.
`Markup.TextCanForgeItems` proves it: one item whose text carries item
markup renders exactly like two items. Read-back is therefore stated only
for records whose fields carry no markup: no `<` in the version, the date
or a text, and no `"` in a type.

## Model

| member | source | states |
|---|---|---|
| `Fetch.FetchVersionsIndex` | changelog.js:2-12 | the manifest's `versionFiles` when the fetch delivers a parsed manifest; the empty list on a transport failure, a non-ok status, a non-JSON body or a `null` body |
| `Fetch.IndexFailureLooksEmpty` | changelog.js:8-11 | the loader's result is empty exactly when the manifest failed or lists no files, so the two cannot be told apart |
| `Fetch.VersionPath` | changelog.js:17 | a file is fetched at `versions/` followed by its name, unchanged |
| `Fetch.FetchVersionData` | changelog.js:15-24 | a record is returned exactly when its fetch delivers a parsed record, and it is that record; every failure gives `null` |
| `Fetch.Settled` | changelog.js:29-30 | slot `i` of the joined results is file `i`'s result, whatever order the fetches finish in |
| `Fetch.Present` | changelog.js:31 | the filter returns no more entries than it is given |
| `Fetch.PresentMembers` | changelog.js:31 | every value the filter returns was present in the input, and every present input value is returned |
| `Fetch.PresentLength` | changelog.js:31 | the filter's result is as long as the input minus the number of `null` entries |
| `Fetch.PresentAppend` | changelog.js:31 | filtering a concatenation is concatenating the filtered parts, so entries keep their relative order |
| `Fetch.PresentIndices` | changelog.js:31 | no more positions than input entries, each inside the input |
| `Fetch.PresentSelects` | changelog.js:31 | there is one position per returned value; the result is the subsequence at strictly ascending positions, and those positions are exactly the non-`null` ones |
| `Fetch.FetchAllVersions` | changelog.js:27-32 | at most one record per listed file; none when the manifest fails |
| `Fetch.FailedCount` | changelog.js:15-24 | the number of listed files whose fetch does not deliver a parsed record, at most the number of files |
| `Fetch.SettledFailures` | changelog.js:29-30 | the `null` slots of the joined results are exactly as many as the files whose fetch does not deliver |
| `Fetch.FetchAllVersionsCount` | changelog.js:27-32 | with N files listed, of which K (`FailedCount`) do not deliver, N - K records come back |
| `Fetch.FetchAllVersionsOrder` | changelog.js:27-32 | the records are those of the files that loaded, in manifest order, and every file that loaded contributes its record |
| `Fetch.OneOfTwoFilesFails` | changelog.js:27-32 | a manifest of two files whose second answers with a failing status yields only the first record |
| `Markup.TagText` | changelog.js:68-75 | `feature` gives `Yeni`, `bugfix` gives `Bugfix`, `improvement` gives `Deneysel`, any other string gives the empty label; the label is non-empty exactly for those three |
| `Markup.TagLabelNamesTag` | changelog.js:68-75 | two types with the same non-empty label are the same type |
| `Markup.HasTag` | changelog.js:58 | the truthiness test on the type: present and not the empty string; `TagSpan` is stated in terms of it |
| `Markup.TagSpan` | changelog.js:58 | an item has a tag span exactly when its type is truthy (`HasTag`) |
| `Markup.TagSpanShowsLabel` | changelog.js:58 | a truthy type's span carries the type, verbatim, as its class and `TagText(type)` as its text, between the fixed span markup |
| `Markup.UnknownTagHasEmptyLabel` | changelog.js:58 | an unknown non-empty type still gets a span carrying the type as class, with empty text |
| `Markup.ItemShowsFields` | changelog.js:56-59 | the markup of an item (`ItemMarkup`) opens the `li`, shows the text verbatim, then the tag span, then closes the `li` |
| `Markup.ItemsMarkup` | changelog.js:55-60 | the items' markup is empty exactly when there are no updates |
| `Markup.ItemsMarkupAppend` | changelog.js:55-60 | the items' markup is laid out item after item, in list order |
| `Markup.BlockMarkup` | changelog.js:49-62 | a block's markup opens with the header markup up to `Version ` and ends by closing the list |
| `Markup.BlockShowsHeader` | changelog.js:49-53 | for every record, the block holds `Version ` followed by the version verbatim, and after it the date verbatim |
| `Markup.TextCanForgeItems` | changelog.js:55-60 | an unescaped text carrying item markup renders exactly like two items, the first of them tagged |
| `ReadBack.ReadSpan` | changelog.js:58 | a span whose text is the label of the type in its class reads back as that type; `ParseSpan` refuses any other text |
| `ReadBack.ReadItem` | changelog.js:56-59 | one item reads back as its text and, when shown, its type, leaving what follows it |
| `ReadBack.ReadItems` | changelog.js:55-61 | a list reads back as its items, one per update, in order |
| `ReadBack.ReadBlock` | changelog.js:49-62 | a block whose fields carry no markup reads back as its version, its date and its updates, in order |
| `Render.VersionBlock` | changelog.js:46-49 | each version becomes a `div` element of class `version-block` |
| `Render.VersionBlocks` | changelog.js:45-65 | one block per version, block `i` being the `div.version-block` of version `i` |
| `Render.RenderedBlocksReadBack` | changelog.js:45-65 | each rendered block whose record carries no markup reads back as that record |
| `Render.Target` | changelog.js:36-40 | the renderer has a container to write into exactly when the page has `#changelog-container`, and then it is that one element |
| `Render.Container.Clear` | changelog.js:43 | clearing leaves the container with no children |
| `Render.Container.AppendChild` | changelog.js:64 | appending adds the element after the existing children |
| `Render.RenderChangelog` | changelog.js:35-66 | with the container present its children become exactly the blocks of the versions, in order, and nothing from before survives; without it nothing changes; no other element changes |
| `Render.RenderChangelogTwice` | changelog.js:43-65 | rendering the same versions twice leaves what rendering once leaves |
| `Render.OnContentLoaded` | changelog.js:78-81 | after loading, the container shows N - K blocks for N listed files of which K (`FailedCount`) do not deliver, in manifest order, and none when the manifest fails |

## Left out

- Network I/O and JSON parsing are not modelled. Each fetch is an abstract
  outcome given by a function from relative path to outcome, so two
  fetches of the same path have the same outcome.
- `Promise.all` concurrency is modelled as a sequential map. The result
  order is manifest order, which is what the code guarantees.
- `console.error` diagnostics are left out: they do not affect any result.
- Registering the `DOMContentLoaded` listener is left out. The handler's
  body is modelled as `Render.OnContentLoaded`.
- Real DOM and HTML parsing are left out. A block's `innerHTML` is the
  string assigned to it, not what a browser would parse and serialise back.
- Malformed manifests and records are not modelled. A manifest without
  `versionFiles` and a record without `updates` make the script throw
  outside any `try`. Well-shaped values are guaranteed by the types. A
  `type` that is not a string is not modelled either.
