# OJET tag metadata transformation, modelled in Dafny

The build script `index.js` reads the component metadata files of Oracle JET
(one JSON descriptor per component) and writes a `tags.json` document for
editor tooling. For each descriptor it builds a tag record. The record holds
the component's name, its description when that is non-empty, and a list of
attributes in three parts:

- **Plain attributes**: one per property node at any depth. A node's name is
  its dotted key path, normalised.
- **Listener attributes**: one per top-level property, named
  `on-<key>-changed`, with a fixed description.
- **Event attributes**: one per event, named `on-<event>`.

Names are normalised by `transformUpperName`. It splits an identifier into
the matches of `/[A-Z]+[^A-Z]*|[^A-Z]+/g`, joins them with `-` and
lower-cases the result, so `readOnly` becomes `read-only`. The collector keeps
the directory entries whose names end in `.json` in any letter case. It
transforms each one and wraps the tags as `{version: 1, tags}`.

The project has five modules:

- `Wrappers` (`wrappers.dfy`): `Option` and `Result`.
- `Descriptors` (`descriptors.dfy`): the descriptor and output shapes. A JSON
  object is an ordered sequence of (key, value) entries in `Object.keys`
  order.
- `Naming` (`naming.dfy`): `transformUpperName` and `transformEventName`.
  - The regex matches are defined constructively, as greedy runs.
  - They are also characterised independently as the unique segmentation of
    the input.
  - The proofs cover the length law, the fixed points, idempotence and the
    worked identifiers.
- `Transformer` (`transformer.dfy`): `transformPropertyName`,
  `obtainAttributesFromProperties` (plain and listener forms),
  `obtainAttributesFromEvents` and the record assembly.
  - The proofs cover counts and layout.
  - They show the flattening is complete and sound with respect to the paths
    of the property tree.
  - They include worked descriptors.
- `Collector` (`collector.dfy`): the `.json` filter, `Promise.all` over the
  kept files, and the output document.

Some behaviour of the code differs from what a reader might expect. The
model follows the code:

- **A group key yields an attribute of its own.** One might expect a key that
  only holds nested properties to produce just its children's attributes. The
  code also emits the group key itself: for `item: {properties: {text: {}}}`
  it emits `item`, `item.text` and `on-item-changed`
  (`NestedGroupOfLowerCaseKeys`).
- **The dot of a dotted path is kept.** One might expect `item.text` to become
  `item-text`. `.` is not an upper-case letter, so it stays inside a match and
  the name is `item.text`.
- **An upper-case run is not split.** One might expect `ABCdef` to become
  `ab-cdef`. It is one greedy match and becomes `abcdef`
  (`UpperRunThenOthers`).
- **Tags are not sorted.** They follow the directory listing order.

A throwing call is modelled as `Failure(EmptyIdentifier)`. This happens when
an empty top-level property key or event key reaches `transformUpperName`,
because `"".match(...)` is `null`. A nested empty key is harmless, because its
path starts with `parent.`.

## Model

| member | source | states |
|---|---|---|
| Naming.ToLower | index.js:171 | lower-casing maps an upper-case letter 32 code points up, yields no upper-case letter and leaves other characters alone |
| Naming.Lower | index.js:171 | `toLowerCase` keeps the length, leaves no upper-case letter, and is the identity on strings without one |
| Naming.LowerEach | index.js:171 | `toLowerCase` lower-cases each character at its own position |
| Naming.Run | index.js:14 | a run of upper-case (or of other) characters is no longer than the input |
| Naming.RunMaximal | index.js:14 | the run is the longest such prefix: every character before it qualifies and the one at it does not |
| Naming.SegmentLength | index.js:14 | the first regex match is non-empty and no longer than the input |
| Naming.SegmentLengthSpec | index.js:14 | the first match is a segment (upper-case run, then other characters) and ends at the end or at a lower-to-upper boundary |
| Naming.SegmentLengthUnique | index.js:14 | those two properties determine the first match's length |
| Naming.Segments | index.js:171 | there are at most as many matches as characters, and none exactly when the input is empty |
| Naming.SegmentsSpec | index.js:171 | the matches concatenate to the input and form a segmentation |
| Naming.SegmentsUnique | index.js:171 | any segmentation of the input that concatenates to it is the list of matches |
| Naming.SegmentsCharacterised | index.js:171 | a list is the list of matches if and only if it concatenates to the input and is a segmentation |
| Naming.SingleSegment | index.js:14 | a non-empty string without upper-case letters is a single match |
| Naming.JoinWithHyphen | index.js:171 | `join("-")` adds one character per gap between pieces |
| Naming.TransformUpperName | index.js:170-172 | the empty string is refused (the source throws); the result is non-empty and has no upper-case letter |
| Naming.UpperNameLength | index.js:170-172 | output length = input length + number of matches − 1 |
| Naming.UpperNameFixedPoints | index.js:170-172 | the output equals the input if and only if the input has no upper-case letter |
| Naming.UpperNameIdempotent | index.js:170-172 | normalising twice equals normalising once |
| Naming.UpperNameOfSegmentation | index.js:170-172 | the output is the lower-cased hyphen join of any segmentation of the input |
| Naming.UpperNameOfTwo | index.js:170-172 | two segments with a lower-to-upper break are the matches, and the output is their lower-cased join with one hyphen |
| Naming.UpperNameOfThree | index.js:170-172 | the same for three segments with two breaks |
| Naming.UpperRunThenOthers | index.js:170-172 | an upper-case run followed by other characters is one match, so it is only lower-cased (`ABCdef` → `abcdef`) |
| Naming.ExampleReadOnly | index.js:170-172 | `readOnly` is matched as `read`, `Only` and becomes `read-only` |
| Naming.LowerReadOnly | index.js:171 | lower-casing `read-Only` gives `read-only` |
| Naming.ExampleEventKey | index.js:170-172 | `ojBeforeExpand` is matched as `oj`, `Before`, `Expand` and becomes `oj-before-expand` |
| Naming.LowerBeforeExpand | index.js:171 | lower-casing `oj-Before-Expand` gives `oj-before-expand` |
| Naming.ExampleEventName | index.js:166-168 | the event `ojBeforeExpand` is named `on-oj-before-expand` |
| Naming.ExampleUpperRun | index.js:14 | `ABCdef` is a single match and becomes `abcdef` |
| Naming.LowerUpperRun | index.js:171 | lower-casing `ABCdef` gives `abcdef` |
| Naming.TransformEventName | index.js:166-168 | the event name is `on-` followed by the normalised key, with no upper-case letter |
| Transformer.IfTruthy | index.js:123-125 | an optional description is kept exactly when present and non-empty |
| Transformer.EnumValues | index.js:127-131 | each enumeration value becomes `{name: v}`, in order and with the same count |
| Transformer.TransformPropertyName | index.js:149-151 | the path is empty only when prefix and key are; with an empty prefix it is the key, otherwise prefix, `.`, key |
| Transformer.PlainAttribute | index.js:116-132 | the name is the normalised path; the description is present if and only if truthy; the values are present if and only if `enumValues` is, with the same names in order |
| Transformer.NodeCount | index.js:111-147 | a tree has at least as many nodes as top-level keys |
| Transformer.LevelAttributes | index.js:112-134 | the first `map` gives exactly one attribute per key of the level |
| Transformer.GroupAt | index.js:139-143 | a leaf key contributes no nested attributes |
| Transformer.GroupAttributesCount | index.js:136-145 | the nested groups of keys `i..` contribute one attribute per node below those keys |
| Transformer.PlainAttributes | index.js:112-145 | the plain form gives at least one attribute per key of the level |
| Transformer.PlainAttributesCount | index.js:112-145 | the plain list has exactly one attribute per property node of the tree, group nodes included |
| Transformer.PlainAttributesLevelFirst | index.js:112-134 | the keys of the current level come first, in key order, each with its own path's attribute |
| Transformer.PlainAttributesComplete | index.js:111-147 | every node at any depth has its attribute in the list, named after its dotted path |
| Transformer.PlainAttributesSound | index.js:111-147 | every attribute in the list is the attribute of some node, named after its dotted path |
| Transformer.ListenerDescription | index.js:121 | the listener description is 50 characters longer than the key and holds the raw key at position 39 |
| Transformer.ListenerAttributes | index.js:112-136 | one listener per top-level key in key order, named prefix + normalised key + suffix, with the fixed description naming the raw key, and no values |
| Transformer.AttributesFromProperties | index.js:111-147 | an absent object gives nothing; the listener form gives one attribute per top-level key; the plain form gives one per node |
| Transformer.EventAttributes | index.js:153-164 | one attribute per event key in order, named `on-` + normalised key, with the description only when truthy and no values |
| Transformer.Transform | index.js:88-100 | succeeds if and only if no top-level property key or event key is empty; the name is copied; the description is present if and only if truthy |
| Transformer.ComponentAttributes | index.js:98-100 | attributes = plain ++ listeners ++ events |
| Transformer.ComponentAttributeCount | index.js:98-100 | attribute count = property nodes + top-level keys + event keys |
| Transformer.ComponentAttributeLayout | index.js:98-100 | position by position: the plain block with the top-level keys first, then the listener block, then the event block |
| Transformer.EmptyComponent | index.js:98-100 | absent properties and events give a record with no attributes |
| Transformer.ListenerAttribute | index.js:114-125 | the listener of a single key is the listener form's only attribute |
| Transformer.OneEntryPlainAttributes | index.js:112-145 | a level with one key yields that key's attribute, then its group's attributes |
| Transformer.OnePropertyComponent | index.js:88-100 | a descriptor with one property and no events yields its attribute, its group's attributes, then its listener |
| Transformer.ExampleEnumAttributes | index.js:116-132 | a lower-case key with description `d` and values `half`, `outlined` yields that attribute and `on-<key>-changed` |
| Transformer.ExampleEnumProperty | index.js:88-100 | the whole record for that descriptor |
| Transformer.DottedPathNoUpper | index.js:150 | the dotted path of two lower-case keys has no upper-case letter |
| Transformer.NestedGroupOfLowerCaseKeys | index.js:112-145 | a group key with one leaf yields `key`, `key.child` and only the top-level listener |
| Transformer.ExampleEvent | index.js:153-168 | a component `oj-tree` with an empty description and the event `ojBeforeExpand` gives the record `oj-tree`, no description, one attribute `on-oj-before-expand` with the event's description |
| Collector.IsJsonFileName | index.js:13 | a matching name has at least five characters, with `.` five from the end |
| Collector.JsonFiles | index.js:74 | the filter never grows the listing |
| Collector.JsonFileNameByCharacters | index.js:13 | a name matches `/\.json$/i` if and only if it ends in `.` followed by j, s, o, n in either case |
| Collector.ExampleJsonFileNames | index.js:13 | `oj-button.json` and `oj-tree.JSON` match; `json`, `oj-button.js` and `oj-buttonjson` do not |
| Collector.JsonFilesMembers | index.js:74 | an entry is kept if and only if it is in the listing and its name matches |
| Collector.JsonFilesAppend | index.js:74 | filtering distributes over concatenation, so order is kept |
| Collector.JsonFilesOne | index.js:74 | a single entry is kept exactly when its name matches |
| Collector.JsonFilesKeepsAll | index.js:74 | a listing of matching names is kept whole |
| Collector.Outcomes | index.js:75 | the `map` gives one outcome per kept file |
| Collector.All | index.js:73-75 | a resolved `Promise.all` holds one value per outcome |
| Collector.AllSpec | index.js:73-75 | `Promise.all` resolves if and only if every outcome does, and then value i is outcome i's value |
| Collector.AllAppend | index.js:73-75 | settling two lists of outcomes together resolves if and only if both do, with both value lists in order |
| Collector.ProcessAll | index.js:73-75 | on success there is one tag per file |
| Collector.ProcessAllSpec | index.js:73-75 | succeeds if and only if every file transforms, and then tag i is file i's record |
| Collector.ProcessAllAppend | index.js:73-75 | two listings run together succeed if and only if both do, giving both tag lists in order |
| Collector.ProcessAllOne | index.js:73-75 | a single file gives its own record or fails |
| Collector.CollectMetadata | index.js:71-76 | on success there is one tag per kept entry, so never more tags than entries |
| Collector.BuildDocument | index.js:179-182 | the document is `{version: 1, tags}` with the collected tags unchanged, and it fails exactly when collection fails |
| Collector.EmptyDirectory | index.js:71-75 | an empty listing gives `{version: 1, tags: []}` |
| Collector.BuildDocumentSpec | index.js:73-75 | succeeds if and only if every kept file transforms; then version 1 and one tag per kept file, in listing order |
| Collector.FailingFileFailsRun | index.js:73-75 | one matching file that throws rejects the whole run |
| Collector.NonJsonEntryIgnored | index.js:74 | an entry whose name does not match changes nothing, wherever it stands |
| Collector.JsonEntryAppended | index.js:74-75 | a matching entry adds its record at its place in listing order, and the run fails when the earlier entries or this one fail |

## Left out

- File-system and network work is not modelled: directory deletion (index.js:16-66), the repository clone (index.js:190-202), `readdir`, `readFile`, `mkdir`, `writeFile` and `JSON.stringify`. A listing is a sequence of entries with their parsed contents, in the order the directory gives.
- `JSON.parse` is not modelled. Descriptors are taken already parsed. A non-object entry, such as a `null` property, would crash the source; the data types exclude it.
- Promise scheduling and `console` logging are not modelled. `Promise.all` is modelled as all-or-nothing over the files in order. The only failure is an empty identifier, so which rejection comes first does not matter.
- `Object.keys` quirks are not modelled: integer-like keys moving to the front, and a duplicate JSON key keeping its last value. Keys are taken in the given order.
- Non-ASCII case mapping is not modelled. Only `A`-`Z` count as upper case, as in the regex, and `toLowerCase` is modelled on ASCII letters.
- Descriptor values of other JSON types are not modelled, for example a description that is a number or an `enumValues` that is not an array. The truthiness tests are modelled for strings: absent or empty is falsy. A present `enumValues` array is always truthy, including an empty one.
