# Postchain client: Merkle tree elements and REST client helpers

This project models two parts of a Unity/C# client for Postchain (Chromia) blockchain nodes.

- **The Merkle binary-tree element model** (module `Merkle`). It has a closed family of element kinds:
  - `Node`, `SubTreeRootNode`, `ArrayHeadNode` and `DictHeadNode` are internal forks.
  - `Leaf` and `EmptyLeaf` are the leaves.

  Each kind has a domain-separation prefix byte (`Node` = 0, `Leaf` = 1, `NodeArray` = 7, `NodeDict` = 8). Every element carries an optional disclosure-path marker. The model also covers the depth of a tree (`BinaryTree.MaxLevel`). Elements are objects (`class Element`):
  - kind, payload and children are `const`, because the C# children are get-only properties;
  - the path marker is a field that `SetPathElement` overwrites.

  A payload is opaque and is the type parameter `C`. `MaxLevelInternal` is checked against an independent definition of depth: the number of non-empty elements met on a walk down the tree (`PathLevel`). No walk goes deeper than `MaxLevel`, and some walk reaches it.
- **The string handling and decisions of `RESTClient`** (module `Rest`):
  - base-URL normalisation in the constructor;
  - the message-hash check and the status-request path;
  - splicing the query name into a query's JSON object text (RFC 8259 object syntax);
  - the per-character hex rendering `StringToHex`;
  - the outcome `WaitConfirmation` chooses for each status string the node reports.

  .NET's unpadded numerals (`ToString()` and `ToString("X")`) are in module `Numerals`. They come with a proved round trip.

A C# `null` is `None` of an `Option` wherever the source tests for `null`. Exceptions are the `Failure`/`Fail` cases of `Result`/`Outcome`.

Three facts about the code shape the model:
- **Path markers on internal nodes.** Only `Leaf`'s constructor checks the path marker (`src/Merkle/BinaryTree.cs:78-88`). `SubTreeRootNode`, `ArrayHeadNode` and `DictHeadNode` store any path element given to them, and `SetPathElement` stores any element on any kind.
- **A missing child.** A `null` element matches none of the `is` tests in `MaxLevelInternal`. It falls to the else branch (line 138), which throws. The model returns `Failure(NullElement)` there. The element family is closed here, so no other element can reach that branch.
- **The `is Leaf` test.** Line 127 tests `node is Leaf`, but the file declares only the generic `Leaf<T>` (line 70). The model reads the test as matching a leaf of any payload type.

## Model

| member | source | states |
|---|---|---|
| `Merkle.HashPrefixBytesDistinct` | src/Merkle/BinaryTree.cs:7-13 | the four hash prefixes Node, Leaf, NodeArray, NodeDict have four different bytes (0, 1, 7, 8) |
| `Merkle.Element.GetPrefixByte` | src/Merkle/BinaryTree.cs:39-56 | the prefix byte is 0 exactly for Node and SubTreeRootNode (which inherits Node's), 1 exactly for Leaf and EmptyLeaf, 7 exactly for ArrayHeadNode, 8 exactly for DictHeadNode (overrides at lines 91-94, 101-104, 151-154, 166-169) |
| `Merkle.PrefixByteSeparatesDomains` | src/Merkle/BinaryTree.cs:7-13 | two elements have the same prefix byte exactly when both are Node/SubTreeRootNode, both are Leaf/EmptyLeaf, both are ArrayHeadNode, or both are DictHeadNode |
| `Merkle.Element.IsPathLeaf` | src/Merkle/BinaryTree.cs:19-32 | true exactly when the path element set is a leaf path element; false when none is set; so IsPathLeaf implies IsPath (which holds when any element is set) |
| `Merkle.Element.SetPathElement` | src/Merkle/BinaryTree.cs:34-37 | the path element is replaced by the given one (or cleared); afterwards IsPath holds iff one was given and IsPathLeaf iff it is a leaf path element; kind and children are constants and cannot change |
| `Merkle.Element.Node` | src/Merkle/BinaryTree.cs:47-51 | a plain node stores the given children and has no path element |
| `Merkle.Element.SubTreeRootNode` | src/Merkle/BinaryTree.cs:63-67 | stores the given children, content and path element unchanged, of whatever kind |
| `Merkle.Element.ArrayHeadNode` | src/Merkle/BinaryTree.cs:146-149 | stores children, content, path element and size exactly as given |
| `Merkle.Element.DictHeadNode` | src/Merkle/BinaryTree.cs:161-164 | stores children, content, path element and size exactly as given |
| `Merkle.Element.EmptyLeaf` | src/Merkle/BinaryTree.cs:97-99 | an empty leaf has no children and no path element |
| `Merkle.LeafPathCheck` | src/Merkle/BinaryTree.cs:78-88 | the leaf constructor's guard passes exactly when no path element or a leaf path element is given, and otherwise fails with the structure-mismatch exception |
| `Merkle.Element.Leaf` | src/Merkle/BinaryTree.cs:74-89 | when the guard passes, a leaf holds the content and the given path element (none stays none) |
| `Merkle.Element.NewLeaf` | src/Merkle/BinaryTree.cs:74-89 | constructing a leaf throws exactly when a non-leaf path element is given; otherwise the fresh leaf stores the path element, so IsPathLeaf and IsPath hold exactly when one was given |
| `Merkle.BinaryTree.constructor` | src/Merkle/BinaryTree.cs:111-114 | the tree keeps the given root |
| `Merkle.BinaryTree.MaxLevel` | src/Merkle/BinaryTree.cs:116-119 | the tree's depth is defined exactly when no node in it lacks a child |
| `Merkle.BinaryTree.MaxLevelInternal` | src/Merkle/BinaryTree.cs:121-140 | succeeds exactly on elements with no missing child below them; the depth is 0 only for an empty leaf and at least 1 for every node kind |
| `Merkle.PathLevelAtMostMaxLevel` | src/Merkle/BinaryTree.cs:121-135 | no walk down the tree meets more non-empty elements than MaxLevel |
| `Merkle.DeepestPath` | src/Merkle/BinaryTree.cs:121-135 | some walk down the tree (following the deeper child) meets exactly MaxLevel non-empty elements, so MaxLevel is the maximum |
| `Merkle.NodeDeeperThanChildren` | src/Merkle/BinaryTree.cs:131-135 | every node kind (including SubTreeRoot, ArrayHead, DictHead) is strictly deeper than each child |
| `Merkle.NodeOverEmptyLeavesHasLevelOne` | src/Merkle/BinaryTree.cs:123-135 | a node whose children are two empty leaves has depth 1 |
| `Rest.WithTrailingSlash` | src/RESTClient.cs:31 | an empty URL throws; otherwise the kept URL ends with '/', extends the given one by at most one character, and is the given one if it already ended with '/' |
| `Rest.TrailingSlashIsShortest` | src/RESTClient.cs:31 | the kept URL is no longer than any extension of the given URL that ends with '/' |
| `Rest.TrailingSlashIdempotent` | src/RESTClient.cs:31 | normalising a normalised URL changes nothing |
| `Rest.RESTClient.constructor` | src/RESTClient.cs:29-34 | the client keeps the normalised URL (ending with '/') and the blockchain RID as given |
| `Rest.ValidateMessageHash` | src/RESTClient.cs:180-191 | passes exactly a non-null hash of length 64; null throws "not a Buffer", any other length throws the wrong-length exception carrying that length |
| `Rest.HashErrorMessagesDistinct` | src/RESTClient.cs:182-190 | the two exception messages differ, and wrong-length messages for different lengths differ |
| `Rest.RESTClient.StatusPath` | src/RESTClient.cs:43-47 | the path is built only when the hash passes validation, with the same exception otherwise; it is "tx/" + RID + "/", then the hash, then "/status" |
| `Rest.StatusPathInjective` | src/RESTClient.cs:43-47 | different hashes give different status paths for one client |
| `Rest.AppendQueryName` | src/RESTClient.cs:70-82 | a null or empty text gives exactly `{"type": "<name>"}`; any other text gives exactly the text without its last character, then `, "type": "<name>" }`; the result always ends with '}' |
| `Rest.AppendQueryNameInjective` | src/RESTClient.cs:70-82 | for the same text, different query names give different results |
| `Rest.AppendQueryNameOnEmptyObject` | src/RESTClient.cs:72-77 | as written, the empty object text "{}" becomes a text whose second character is a comma |
| `Rest.AppendQueryNameAddsTypeMember` | src/RESTClient.cs:72-77 | for an object text with members, the result is the same object with the `"type"` member added after its existing members |
| `Rest.CorrectedAddsTypeMember` | src/RESTClient.cs:70-82 | the corrected splice adds the `"type"` member to every object text: after the existing members, or as the only member of `{}` |
| `Rest.CorrectedStartsWithMember` | src/RESTClient.cs:72-77 | for any object text with members, including the empty one, the corrected result opens with '{' followed by a member's opening quote |
| `Numerals.Numeral` | src/RESTClient.cs:198 | a numeral has at least one digit, uses only digits of its base, and has no leading zero |
| `Numerals.NumeralRoundTrip` | src/RESTClient.cs:198 | reading a numeral back gives the number it renders |
| `Numerals.NumeralInjective` | src/RESTClient.cs:189 | different numbers have different numerals |
| `Rest.CharHex` | src/RESTClient.cs:198 | a character's hex is a non-empty upper-case hex numeral whose value is the character's code |
| `Rest.StringToHex` | src/RESTClient.cs:193-201 | the buffer filled by the loop is the concatenation of the characters' hex numerals in order |
| `Rest.HexOfAppend` | src/RESTClient.cs:196-199 | the hex of a concatenation is the concatenation of the hexes (so the empty string gives "") |
| `Rest.HexOfShape` | src/RESTClient.cs:196-199 | the hex of a string holds only 0-9 and A-F and is at least as long as the string |
| `Rest.HexOfIsNotInjective` | src/RESTClient.cs:198 | without padding the rendering is ambiguous: [U+0001, U+0002] and [U+0012] both give "12" |
| `Rest.StatusDecision` | src/RESTClient.cs:124-140 | only "unknown" and "waiting" poll again; only "confirmed" finishes without error (and with an empty message); "rejected", "exception" (with the server's message) and every other status, null included, finish with an error and their own message |

## Left out

- Network I/O is not modelled. This covers `Get`, `Post`, `PostTransaction`, `getDebug`, `Query` and `PostAndWaitConfirmation` (the Unity web requests, upload/download handlers and headers).
- `WaitConfirmation`'s 511 ms delay and its recursive re-polling are not modelled. Only the decision for one response is, as `Rest.StatusDecision`.
- Deserialising the status response (`JsonUtility.FromJson`) is not modelled. The decision receives the parsed `status` and `message` fields.
- `MiniJSON.Json.Serialize` and `JsonConvert` are foreign libraries, and they are not part of this model. `Rest.ObjectText` stands for MiniJSON's object text only in the lemmas about the empty-object case.
- `IsTuple` and `ToEnumerable` are left out because they are runtime reflection over generic type definitions.
- `src/GTX/GTXClient.cs` is left out. It is an async wrapper over the client and over `Gtx`/`Transaction`, which are not part of this model.
- Hash computation, building trees from values, path annotation, pruning and proof verification are left out. None of them is in the modelled source. Only the prefix bytes that hashing would use are modelled.
- Element payloads (`Content`) are an uninterpreted type parameter. `Leaf`'s `dynamic` payload and the generic parameter of the other classes are not distinguished.
- Path elements are only `PathLeafElement` and one non-leaf variant. Only that distinction is observable in the modelled source.
- `Merkle.BinaryTree.MaxLevelInternal` returns an unbounded `nat`. The source's `int` result could only overflow for trees deeper than 2^31 levels, so this is not modelled.
- `Merkle.Element.Node` and the other constructors require their children to be `Valid()` (acyclic with a shrinking footprint). This is the representation invariant: every element built by these constructors satisfies it.
- `Rest.RESTClient.constructor` requires a non-empty URL, because the source's `Last()` throws on an empty one. That exception is modelled by `Rest.WithTrailingSlash`. A `null` URL (which throws as well) is not modelled.
- `Rest.ValidateMessageHash` counts a string's length in Unicode scalar values. C# `Length` (`src/RESTClient.cs:187`) counts UTF-16 code units, so a hash holding characters above U+FFFF is accepted or refused differently: 32 such characters have length 64 in C# and 32 here. The same applies to `Rest.RESTClient.StatusPath`, which uses this check. It also applies to `Rest.AppendQueryName`, whose `Remove(Length - 1)` (line 74) would drop only the low surrogate of a final character above U+FFFF, while the model drops the whole character.
- `Rest.StringToHex` treats a character as a Unicode scalar value. A C# string holds UTF-16 code units, so for a character above U+FFFF the source renders its two surrogate halves, and the model renders the single code point.

## Findings

| source | as written | input that shows it | evidently intended | confidence | as-written member | corrected member |
|---|---|---|---|---|---|---|
| src/RESTClient.cs:72-77 | a non-empty query text loses its last character and then gets `, "type": "<name>" }` | a query with no arguments: MiniJSON writes an empty dictionary as `{}`, so `AppendQueryName("q", "{}")` is `{, "type": "q" }`, which is not an RFC 8259 object | `{"type": "q"}`, as for an empty text | medium; not executed; relies on MiniJSON rendering an empty dictionary as `{}` | `Rest.AppendQueryNameOnEmptyObject` | `Rest.AppendQueryNameCorrected` (properties proved in `Rest.CorrectedAddsTypeMember` and `Rest.CorrectedStartsWithMember`) |
