# codepod kernel gateway and canvas helpers, in Dafny

This project models four parts of codepod, an interactive notebook whose pods (code cells)
sit on a canvas and run in language kernels.

- **The kernel gateway** (`api/kernel.js`).
  - The Jupyter wire codec: `serializeMsg`, `deserializeMsg`, `constructMessage` and `constructExecuteRequest`.
  - `ZmqWire`, which sends signed requests on the shell socket and decodes IOPub traffic.
  - `CodePodKernel`, which turns pod operations into execute requests with chosen message ids.
  - `createKernel`, and the per-language source templates of the Julia, Python, Racket and JavaScript kernels.
- **The export reducers** (`ui/src/lib/reducers/export.js`). These update a pod's `exports`, `imports`, `midports` and `io` objects in place.
- **The node geometry helpers** (`ui/src/components/nodes/utils.tsx`). These choose the side a floating edge leaves from and the helper lines a dragged node snaps to.
- **The canvas helpers** (`ui/src/components/Canvas.tsx`).
  - `store2nodes` flattens the pod tree into canvas nodes.
  - `verifyConsistency` and `verifyEdgeConsistency` compare the shared Yjs maps with the database.
  - The edges rebuilt from arrows.
  - `getBestNode` picks the target of a keyboard jump.

Modules, one per file:

| file | module | what it holds |
|---|---|---|
| `wrappers.dfy` | `Wrappers` | `Option` and `Result` |
| `json.dfy` | `Json` | JSON values, `Stringify`, `Parse` and their round trip |
| `codec.dfy` | `Codec` | frames, headers, HMAC as a parameter, encode/decode, request construction |
| `mapper.dfy` | `Mapper` | languages, names of images, files and containers, the `map*` templates |
| `kernel.dfy` | `Kernel` | classes `ZmqWire` and `CodePodKernel`, and `CreateKernel` |
| `export_reducers.dfy` | `ExportReducers` | class `PodStore` with the thirteen reducers |
| `flow.dfy` | `Flow` | reactflow's points, nodes and edges |
| `node_utils.dfy` | `NodeUtils` | edge sides and helper lines |
| `canvas.dfy` | `Canvas` | `store2nodes`, the consistency checks, arrow edges, `getBestNode` |

JavaScript's `null` and `undefined` are `None` wherever the source tests for them. An
exception the source would raise (for example, reading a field of `undefined`) is an error
value: `Thrown`, `Err` or `Some("TypeError")`.

Coordinates are `real`. The checks compare with `<`, `+`, `abs` and a square, and nothing depends on rounding.

## Model

| member | source | states |
|---|---|---|
| Codec.Serialize | api/kernel.js:127-160 | Gives exactly 7 frames: the message id, the delimiter, the HMAC, the header JSON, `{}`, `{}`, the content JSON. The signature is the MAC over header, parent, metadata and content in that order. |
| Codec.SerializeIgnoresParentMetadataBuffers | api/kernel.js:130-136 | The frames depend only on header and content: parent header, metadata and buffers never reach the wire. |
| Codec.HeaderFields | api/kernel.js:229-237 | The header JSON carries `msg_id`, `msg_type`, `session`, `username`, `date` and `version` with the header's values. |
| Codec.FirstDelimiter | api/kernel.js:163-173 | The scan stops at the first `<IDS|MSG>` frame; every frame before it is not the delimiter. |
| Codec.FirstDelimiterUnique | api/kernel.js:163-173 | Any index with that property is the one the scan finds. |
| Codec.DecodeCases | api/kernel.js:162-218 | A decode is rejected for too few frames exactly when fewer than 6 frames start at the delimiter. The missing-delimiter branch is unreachable. A bad signature is reported only with a truthy key. A decoded message has the frames before the delimiter as idents, the frames after the content as buffers, and header/parent/metadata/content parsed from frames i+2..i+5; with a key the signature matched. |
| Codec.DeserializeMsg | api/kernel.js:162-218 | The index loop collecting identities computes the decode as written, `DecodeAsWritten`, with the `< 5` guard. |
| Codec.AsWrittenAgrees | api/kernel.js:162-218 | Whenever the decode as written does not throw, it gives what the corrected decode gives. |
| Codec.DecodeAsWritten | api/kernel.js:174-177 | The guard as written agrees with the corrected decode on every input except a delimiter followed by exactly four frames. |
| Codec.ShortMessageThrowsAsWritten | api/kernel.js:174-212 | Delimiter plus four frames passes the guard as written and throws when the missing content frame is read; the corrected decode rejects it. |
| Codec.DecodeSerialize | api/kernel.js:127-218 | Decoding what was serialized with the same key gives the message id as the only identity, the header and content back, `{}` for parent and metadata, and no buffers. |
| Codec.DecodedIdents | api/kernel.js:163-173 | The idents of a decoded message are the prefix before the delimiter and contain no delimiter. |
| Codec.NoDelimiterRejected | api/kernel.js:174-177 | Frames without a delimiter are rejected by the length guard. |
| Codec.WrongSignatureRejected | api/kernel.js:184-201 | With a non-empty key and a signature frame that does not match, the decode returns `null`. |
| Codec.RightSignatureAccepted | api/kernel.js:184-215 | With a matching signature the decode goes on to parse the body. |
| Codec.NoKeyNoCheck | api/kernel.js:184 | With a missing or empty key the signature frame is never read: forging it changes nothing. |
| Codec.ConstructMessage | api/kernel.js:220-243 | Fails exactly when `msg_type` is empty. Otherwise the header has the given type, version `5.0`, user `dummy_user`, the given or a fresh id, a fresh session and the date; parent header and metadata are `{}`, buffers empty, content defaults to `{}`. |
| Codec.ExecuteContentFields | api/kernel.js:252-265 | The execute content holds the code, `cp`, `silent: false`, `store_history: false`, `allow_stdin: false`, `stop_on_error: true`. |
| Codec.ConstructExecuteRequest | api/kernel.js:245-267 | Succeeds exactly when code and message id are non-empty; the result is an `execute_request` with that id and the execute content. |
| Codec.ExecuteRequestOnTheWire | api/kernel.js:245-267 | A constructed execute request, serialized and decoded with the same key, arrives with its id, type, version and code intact. |
| Json.ParseStringify | api/kernel.js:130-136 | `JSON.parse(JSON.stringify(v))` is `v`, which is what lets the decoder read back the header and content frames. |
| Json.SurrogatePairRead | api/kernel.js:204-206 | As `JSON.parse` does, the escapes of a high and a low surrogate, `\ud83d\ude00`, read as the one character U+1F600. |
| Json.LoneSurrogateRejected | api/kernel.js:204-206 | A high-surrogate escape with no low one after it is a parse error: a lone surrogate is no character of a Dafny string. |
| Mapper.ContainerNameInjective | api/kernel.js:404 | Different sessions get different container names for the same language. |
| Mapper.LangOf | api/kernel.js:490-504 | A kernel is created exactly for `julia`, `js`, `racket` and `python`, and `js` selects the JavaScript kernel. |
| Mapper.LangOfLangName | api/kernel.js:490-504 | Each kernel's own `lang` selects it again in `createKernel`, except JavaScript, whose `lang` is `javascript` while the selector is `js`. |
| Mapper.EscapeQuotes | api/kernel.js:529 | After `replaceAll('"', '\\"')` every double quote is preceded by a backslash. |
| Mapper.MapEval | api/kernel.js:511-572 | The kernel starts reading the code's string literal right after the language's prefix, so what it receives is its literal reading (for Julia, with the layout of a triple-quoted string) of the code as embedded followed by the template's suffix. |
| Mapper.ReadVerbatim | api/kernel.js:511-572 | For Julia, Racket and JavaScript, with any indentation to remove, the reader gives back exactly the embedded code and closes right after it if and only if every character of the code is taken as itself (no delimiter, escape, interpolation, carriage return read as a line feed, or removed indentation) and a closing delimiter follows. |
| Mapper.JuliaVerbatim | api/kernel.js:511-513 | Julia receives the code as written, closing right after it, if and only if it is `Verbatim`: taken as itself character by character, not starting with a line feed (which the triple-quoted string drops) and with no indentation shared by its lines (which it removes). |
| Mapper.MapEvalReadsBack | api/kernel.js:511-572 | Julia, Racket and JavaScript receive the pod's code exactly when it is `Verbatim`. Python receives it whenever it holds no backslash and no carriage return. |
| Mapper.RacketQuoteBreaksOut | api/kernel.js:548-549 | Racket code `(f "a")` arrives as `(f `: its first double quote closes the string. |
| Mapper.JuliaQuoteBreaksOut | api/kernel.js:511-512 | Julia code ending in `"` closes the triple-quoted string one character early, and code `$x` interpolates, so no literal is received. |
| Mapper.JavascriptBacktickBreaksOut | api/kernel.js:562-570 | A backtick ends the JavaScript template at once, and `${x}` interpolates. |
| Mapper.PythonEscapeIsRead | api/kernel.js:527-528 | Python code `a\nb` arrives with a newline where the backslash escape was. |
| Mapper.JuliaLeadingBreakDropped | api/kernel.js:511-513 | Julia code `\n1` arrives as `1`: the line feed right after the opening `"""` is dropped. |
| Mapper.JuliaIndentRemoved | api/kernel.js:511-513 | Julia code `1\n 2` arrives as `1\n2`: the indentation of the last line, one space, is removed from the lines after the first. |
| Mapper.JavascriptCarriageReturnRead | api/kernel.js:562-570 | JavaScript code `1\r\n` arrives as `1\n`: the template reads a CRLF as a line feed. |
| Mapper.PythonTrailingBackslashOpens | api/kernel.js:527-528 | Python code ending in a backslash escapes the first closing quote, and the literal never closes. |
| Mapper.MapEvalEscaped | api/kernel.js:511-572 | With every backslash, delimiter character and interpolation character escaped, a carriage return written `\r` where the language would read it as a line feed, and in Julia a line feed written `\n`, the kernel receives the literal read from the escaped code followed by the suffix. |
| Mapper.MapEvalEscapedReadsBack | api/kernel.js:511-572 | With that escaping, every language's kernel receives exactly the pod's code, and the literal closes where the suffix begins; Julia's layout rules never apply, as the escaped code lies on one line. |
| Mapper.EscapeQuotesIsEscape | api/kernel.js:528 | On code without backslashes or carriage returns, Python's `replaceAll('"', '\\"')` is that full escaping. |
| Mapper.SplitInterleave | api/kernel.js:515-580 | Quoting arguments into a template with quote-free pieces is undone by splitting at `"` and taking the odd fields. |
| Mapper.AddImportArgs | api/kernel.js:515-578 | For Julia, Racket and JavaScript, `mapAddImport` passes exactly `from`, `to`, `name` as quoted arguments, in that order. |
| Mapper.DeleteImportArgs | api/kernel.js:518-580 | `mapDeleteImport` passes `ns` and `name` (Python: `del name` and `ns`) as its quoted arguments. |
| Mapper.PythonImportEval | api/kernel.js:530-535 | When neither name holds a quote, a backslash or a carriage return, the Python kernel receives exactly `name = CODEPOD_GETMOD("from").__dict__["name"]`, a newline and `0`. |
| Mapper.MapEnsureImports | api/kernel.js:540-542 | Only Python defines `mapEnsureImports`, and it produces the same text as `mapAddImport`. |
| Mapper.MapAddImport | api/kernel.js:515-577 | The import text is never empty, so it is always accepted by `constructExecuteRequest`. |
| Mapper.MapDeleteImport | api/kernel.js:518-580 | The delete-import text is never empty. |
| Kernel.Listen | api/kernel.js:328-333 | Every received message is handed on, `null` included, until `deserializeMsg` as written throws; the throw ends the loop. |
| Kernel.ListenDelivers | api/kernel.js:328-333 | The k-th handler call gets the k-th message's topic and its decode as written; a stop is caused by a decode that throws. |
| Kernel.ListenedIdents | api/kernel.js:328-333 | A delivered message's idents are the frames before its delimiter. |
| Kernel.ListenStopsAsWritten | api/kernel.js:174-177 | A message of a delimiter and four frames ends the loop with a `TypeError`, and nothing after it is delivered; the corrected loop hands it on as `null`. |
| Kernel.ListenCorrected | api/kernel.js:328-333 | With the corrected guard, one handler call per received message. |
| Kernel.ListenCorrectedDelivers | api/kernel.js:328-333 | The k-th call of the corrected loop gets the k-th topic and the corrected decode. |
| Kernel.ListenAgrees | api/kernel.js:328-333 | What the loop as written delivers before it stops is a prefix of what the corrected loop delivers. |
| Kernel.ImportIdInjective | api/kernel.js:462-478 | `id + "#" + name` tells the names of one pod apart. |
| Kernel.EnsureRequestsPerName | api/kernel.js:472-481 | The ensure requests are one per name, in order, each an `execute_request` with id `id#name` and the Python import code for that name. |
| Kernel.ZmqWire.constructor | api/kernel.js:270-290 | The kernel spec is the content of the named connection file, and a truthy `ip` overrides its address. The status starts as `uknown` (sic); nothing is sent yet. |
| Kernel.ZmqWire.SendShellMessage | api/kernel.js:299-310 | The message is appended to what was sent; nothing else changes. |
| Kernel.ZmqWire.ListenIOPub | api/kernel.js:312-334 | An open subscriber is closed first. The loop computes `Listen` over the received traffic with the connection key: the deliveries, and the error that ended it. |
| Kernel.CodePodKernel.constructor | api/kernel.js:506-582 | A kernel of one language starts with no session, no wire and no Docker calls. |
| Kernel.CodePodKernel.Init | api/kernel.js:401-418 | Removes and then recreates the container `cpkernel_<session>_<lang>` from the language's image, and opens a fresh wire on the language's connection file. It sends the content of the language's startup file as an `execute_request` with id `CODEPOD`; an empty startup file fails. |
| Kernel.CodePodKernel.Kill | api/kernel.js:419-431 | Removes the session's container, named as in `init`. |
| Kernel.CodePodKernel.RunCode | api/kernel.js:432-439 | Sends exactly one execute request with the given code and id. It fails without a wire or with empty code or id. It draws one entropy value exactly when it succeeds, and leaves the wire's connection spec, status and subscriber unchanged. |
| Kernel.CodePodKernel.RequestKernelStatus | api/kernel.js:440-445 | Sends one `kernel_info_request` with a fresh id. It draws one entropy value exactly when it succeeds, and leaves the wire's connection spec, status and subscriber unchanged. |
| Kernel.CodePodKernel.Eval | api/kernel.js:446-451 | Sends the language's `mapEval` text under the pod id. Midports are not passed on. It draws one entropy value exactly when it succeeds, and leaves the wire's connection spec, status and subscriber unchanged. |
| Kernel.CodePodKernel.EvalRaw | api/kernel.js:452-457 | Sends the code unchanged under the pod id. It draws one entropy value exactly when it succeeds, and leaves the wire's connection spec, status and subscriber unchanged. |
| Kernel.CodePodKernel.AddImport | api/kernel.js:458-464 | Sends `mapAddImport` under id `id#name`. It draws one entropy value exactly when it succeeds, and leaves the wire's connection spec, status and subscriber unchanged. |
| Kernel.CodePodKernel.DeleteImport | api/kernel.js:465-471 | Sends `mapDeleteImport` under id `id#name`. It draws one entropy value exactly when it succeeds, and leaves the wire's connection spec, status and subscriber unchanged. |
| Kernel.CodePodKernel.EnsureImports | api/kernel.js:472-481 | Python sends one request per name, in order. Other languages fail on the first name, because they have no `mapEnsureImports`. An empty list sends nothing. On success it draws one entropy value per name; it leaves the wire's connection spec, status and subscriber unchanged. |
| Kernel.CreateKernel | api/kernel.js:490-504 | An unknown language gives no kernel. A known one gives a kernel of that language with the session set and the container removed and recreated. Its fresh wire has the language's connection spec, with a non-empty `ip` overriding the address. Start-up fails exactly when the startup file is empty; otherwise the wire has sent that file's content as one `execute_request` with id `CODEPOD`. |
| Kernel.EvalReachesKernel | api/kernel.js:446-451 | An evaluated pod's request crosses the wire with the pod id as identity and as `msg_id`. The kernel reads back the pod's code for Julia, Racket and JavaScript exactly when the code is `Verbatim`, and for Python whenever it holds no backslash and no carriage return. |
| ExportReducers.AddFlag | ui/src/lib/reducers/export.js:2-11 | A missing object is created. The entry is present and `false`, and every other entry is kept. |
| ExportReducers.Toggle | ui/src/lib/reducers/export.js:30-34 | The entry becomes the negation of its truthiness (a missing one becomes `true`); every other entry is kept. |
| ExportReducers.Remove | ui/src/lib/reducers/export.js:22-25 | The entry is gone and every other entry is kept. |
| ExportReducers.ToggleSelf | ui/src/lib/reducers/export.js:35-48 | `self` is set when it was not truthy and cleared otherwise, creating the object if needed. |
| ExportReducers.AddFlagIdempotent | ui/src/lib/reducers/export.js:2-11 | Adding an entry twice is adding it once. |
| ExportReducers.ToggleTwice | ui/src/lib/reducers/export.js:30-34 | Toggling an existing entry twice restores the object. |
| ExportReducers.ToggleMissingTwice | ui/src/lib/reducers/export.js:30-34 | Toggling a missing entry twice leaves it `false` rather than absent. |
| ExportReducers.ToggleSelfTwice | ui/src/lib/reducers/export.js:35-48 | Two deck toggles restore the truthiness of `self`. |
| ExportReducers.RemoveAdded | ui/src/lib/reducers/export.js:2-25 | Deleting a just-added entry gives the object without it. |
| ExportReducers.PodStore.AddPodExport | ui/src/lib/reducers/export.js:2-11 | Only pod `id`'s exports change, as `AddFlag`. An unknown pod throws and leaves the store as it was. |
| ExportReducers.PodStore.SetPodExport | ui/src/lib/reducers/export.js:12-17 | Exports and reexports are replaced by the payload's; nothing else changes. |
| ExportReducers.PodStore.ClearIO | ui/src/lib/reducers/export.js:18-21 | The named output is removed. It throws when the pod or its `io` is missing. |
| ExportReducers.PodStore.DeletePodExport | ui/src/lib/reducers/export.js:22-25 | The named export is removed. It throws when the pod has no exports object. |
| ExportReducers.PodStore.ClearPodExport | ui/src/lib/reducers/export.js:26-29 | Exports become `null`. |
| ExportReducers.PodStore.TogglePodExport | ui/src/lib/reducers/export.js:30-34 | The export is flipped as `Toggle`. It throws when exports is `null`. |
| ExportReducers.PodStore.ToggleDeckExport | ui/src/lib/reducers/export.js:35-48 | Exports become `ToggleSelf` of the old exports. |
| ExportReducers.PodStore.AddPodImport | ui/src/lib/reducers/export.js:49-56 | As `addPodExport`, on imports. |
| ExportReducers.PodStore.DeletePodImport | ui/src/lib/reducers/export.js:57-60 | As `deletePodExport`, on imports. |
| ExportReducers.PodStore.TogglePodImport | ui/src/lib/reducers/export.js:61-65 | As `togglePodExport`, on imports. |
| ExportReducers.PodStore.AddPodMidport | ui/src/lib/reducers/export.js:66-73 | As `addPodExport`, on midports. |
| ExportReducers.PodStore.DeletePodMidport | ui/src/lib/reducers/export.js:74-79 | Without a midports object nothing happens. Otherwise the entry is removed. |
| ExportReducers.PodStore.TogglePodMidport | ui/src/lib/reducers/export.js:80-84 | As `togglePodExport`, on midports. |
| NodeUtils.GetNodeCenter | ui/src/components/nodes/utils.tsx:95-100 | The centre is equally far from the left and right edges, and from the top and bottom. |
| NodeUtils.GetSide | ui/src/components/nodes/utils.tsx:41-60 | Left/Right exactly when the horizontal centre difference exceeds the vertical one; ties go to Top/Bottom. The side faces the other node. |
| NodeUtils.SidesOpposite | ui/src/components/nodes/utils.tsx:41-60 | Two nodes with distinct centres choose opposite sides of each other. |
| NodeUtils.GetParams | ui/src/components/nodes/utils.tsx:41-60 | Returns the chosen side and the handle coordinates on that side. |
| NodeUtils.GetEdgeParams | ui/src/components/nodes/utils.tsx:103-115 | The edge leaves the source's handle on its side and enters the target's. With distinct centres the two sides are opposite. |
| NodeUtils.BoundsAt | ui/src/components/nodes/utils.tsx:141-163 | The box starts at the given position; a missing width or height counts as 0. |
| NodeUtils.Find | ui/src/components/nodes/utils.tsx:135 | Returns the first node with the id, or nothing when no node has it. |
| NodeUtils.GuidesAligned | ui/src/components/nodes/utils.tsx:173-281 | Each of the eight checks snaps so that an edge of A lies on the guide, at the distance that edge is from it. |
| NodeUtils.BestIsFirstMin | ui/src/components/nodes/utils.tsx:150-284 | The strict-`<` running selection keeps the first check of minimum distance below the threshold, and none when no check is below it. |
| NodeUtils.HelperLinesSnap | ui/src/components/nodes/utils.tsx:125-285 | Without the node or a position the result is empty. On each axis the guide is set exactly when the snap is; it is the first closest check strictly within `distance`, among the other nodes only, and the snap puts one of A's edges on it. |
| NodeUtils.SnapVertical | ui/src/components/nodes/utils.tsx:173-229 | The four x-axis checks against one node advance the running selection by those four guides. |
| NodeUtils.SnapHorizontal | ui/src/components/nodes/utils.tsx:234-281 | The four y-axis checks against one node advance the running selection by those four guides. |
| NodeUtils.GetHelperLines | ui/src/components/nodes/utils.tsx:125-285 | The reduce over the nodes computes the helper lines specified by `HelperLinesOf`. |
| Canvas.Measure | ui/src/components/Canvas.tsx:81-86 | A missing or zero width or height becomes `undefined`; any other value is kept. |
| Canvas.PodNode | ui/src/components/Canvas.tsx:68-88 | The node has the pod's id, type, name, parent and position. `parentNode` is unset exactly when the parent is `ROOT`. Its width and height, and the same pair in its `style`, are the pod's sizes with zero or missing left unset; it is dragged by `.custom-drag-handle`. |
| Canvas.Subtree | ui/src/components/Canvas.tsx:63-94 | The visited ids never include `ROOT`, and a non-root subtree starts with its own id. |
| Canvas.Store2Nodes | ui/src/components/Canvas.tsx:63-94 | Succeeds exactly when every visited pod exists, and then lists their nodes in pre-order. |
| Canvas.Store2Forest | ui/src/components/Canvas.tsx:90-92 | The children are flattened one after the other, in list order. |
| Canvas.ChildAfterParent | ui/src/components/Canvas.tsx:63-94 | Everything under a child appears in its parent's list, after the parent. |
| Canvas.NodesByIdKeys | ui/src/components/Canvas.tsx:98-100 | Every node id becomes a key, and each key holds a node with that id. |
| Canvas.ConsistentIff | ui/src/components/Canvas.tsx:96-155 | The check holds exactly when both sides have the same ids and every pair agrees on id and parent, with positions within 0.01. |
| Canvas.ResetIsConsistent | ui/src/components/Canvas.tsx:219-230 | After the shared map is reset from the nodes, the check passes. |
| Canvas.VerifyConsistency | ui/src/components/Canvas.tsx:96-155 | The method answers `Consistent`. |
| Canvas.EdgesByIdKeys | ui/src/components/Canvas.tsx:159-161 | Every edge id becomes a key, and each key holds an edge with that id. |
| Canvas.EdgeConsistentIff | ui/src/components/Canvas.tsx:157-198 | The edge check holds exactly when the ids match and every pair agrees on id, source and target. |
| Canvas.VerifyEdgeConsistency | ui/src/components/Canvas.tsx:157-198 | The method answers `EdgeConsistent`. |
| Canvas.ArrowEdgeId | ui/src/components/Canvas.tsx:242 | The id is the source, an underscore, then the target. |
| Canvas.ArrowEdgeIdInjective | ui/src/components/Canvas.tsx:242 | When sources contain no `_`, distinct arrows get distinct edge ids. |
| Canvas.ArrowEdgeIdsCollide | ui/src/components/Canvas.tsx:242 | With `_` inside ids, two different arrows can share an edge id. |
| Canvas.ArrowProbes | ui/src/components/Canvas.tsx:238-245 | The edges checked against the shared map carry the arrow's id, source and target. |
| Canvas.ArrowEdges | ui/src/components/Canvas.tsx:250-258 | Rebuilt edges have id `source_target`, the arrow's ends, and both handles `top`. |
| Canvas.ProbesMatchEdges | ui/src/components/Canvas.tsx:238-258 | Keyed by id, the probes and the rebuilt edges have the same keys and agree on every key. |
| Canvas.RebuiltEdgesConsistent | ui/src/components/Canvas.tsx:238-262 | After the edge map is rebuilt from the arrows, the edge check passes. |
| Canvas.NotOwnCandidate | ui/src/components/Canvas.tsx:287-308 | The filter is strict, so `from` never passes it. |
| Canvas.GetBestNode | ui/src/components/Canvas.tsx:279-352 | Returns nothing exactly when no node lies strictly beyond `from`'s centre in the direction (with a numeric distance). Otherwise it returns the first node of minimum weighted distance from `from`'s edge midpoint, and never `from` itself. |

## Left out

- Docker: removing and creating containers, the free-port search and the connection-file generator (`api/kernel.js:15-125`, `api/kernel.js:337-398`, `api/kernel.js:590-599`).
  - `init` records the Docker calls it would make.
  - The container's IP address is a parameter.
- ZeroMQ sockets: connecting, sending and the `for await` receive loop are network I/O.
  - `sendShellMessage` appends the message to the wire's `sent` list. The frames it would write are `Frames(msg)`.
  - IOPub traffic is a parameter of `ListenIOPub`.
  - The handler calls are returned as a list rather than made.
- HMAC-SHA256 is the parameter `mac`.
  - The model relies on it only as a function.
  - A signature is compared as a string, as in the source.
- `JSON.stringify`/`JSON.parse` are modelled for objects, arrays, strings, booleans, `null` and integers. Floating-point numbers are not modelled.
- `uuidv4()` and `new Date().toISOString()` come from a supply function, one `Entropy` per message built.
- Reading files: the file system is a parameter. `files` maps a path to its content, and `connSpecs` maps a path to the connection spec parsed from it. Init reads `StartupFile(lang)` and `ConnFile(lang)` through them (`api/kernel.js:271`, `api/kernel.js:411`).
- The unused `results` field of `ZmqWire` is not modelled.
- `await`: the asynchronous steps of `init`, `kill` and `createKernel` run in order, with no interleaving.
- Mapper.EscapeQuotes: Python's `mapEval` escapes double quotes but not backslashes. A backslash in the code is read by Python as an escape (see Findings), so the round trip is proved only for code without backslashes.
- Mapper.ReadLiteral: each kernel's string reader is modelled only as far as the templates need.
  - A literal ends at the delimiter: `"` for Racket, `"""` for Julia and Python, a backtick for JavaScript.
  - `\c` stands for a line feed, a carriage return or a tab for `n`, `r` and `t`, and for `c` itself otherwise; Python keeps the backslash of an escape it does not know.
  - `$` (Julia) and `${` (JavaScript) start an interpolation, which is not read further.
  - Julia, Python and JavaScript read a CR or a CRLF in the source as a line feed; Racket keeps it.
  - Julia's triple-quoted layout is modelled: a line feed right after the opening `"""` is dropped, and the indentation of the last line, cut down to what every non-blank line shares, is removed after each line break.
  - Not modelled, and read by the model as the letter after the backslash:
    - a backslash before a line break, a line continuation in Python, JavaScript, Julia and Racket;
    - Python's `\a`, `\b`, `\f`, `\v`, octal, `\x`, `\N{…}`, `\u` and `\U` escapes;
    - JavaScript's `\b`, `\f`, `\v`, `\0`, `\x` and `\u` escapes;
    - Julia's `\a`, `\b`, `\e`, `\f`, `\v`, octal, `\x`, `\u` and `\U` escapes;
    - Racket's `\a`, `\b`, `\v`, `\f`, `\e`, octal, `\x`, `\u` and `\U` escapes.
  - Julia and Racket raise a syntax error for an escape they do not know; the model reads it as the character itself. JavaScript's template does read an unknown escape `\q` as `q`, as the model does; only its malformed `\x`, `\u` and `\1`–`\9` are errors, and they are not modelled.
  - None of these changes a proved property: a backslash already makes code not `Verbatim`, and `Escape` writes only `\\`, `\"`, `` \` ``, `\$`, `\r` and `\n`.
- Mapper.EscapeQuotesIsEscape: holds only for code without carriage returns as well as without backslashes. Python's reader turns a CR or CRLF into a line feed, which the full escaping writes as `\r`.
- Mapper.MapEvalReadsBack: for Python, only code without backslashes and without carriage returns is shown to arrive as written, for the reason above.
- Mapper.PythonImportEval: the received statement is proved only for names without quotes, backslashes or carriage returns; with them the import text breaks out of its strings the same way `mapEval` does, or has its line breaks rewritten.
- Kernel.EvalReachesKernel: its Python clause carries the same exclusion of backslashes and carriage returns as `Mapper.MapEvalReadsBack`.
- Codec.Decode: `JSON.parse` of a number with a fraction or an exponent is modelled as a `SyntaxError` throw, while JavaScript parses it. A `\u` escape of a lone surrogate (one not part of a high-low pair) is also a `SyntaxError` here, because a Dafny string cannot hold it, while JavaScript keeps it as a lone UTF-16 unit; a surrogate pair is decoded into its one character.
- Kernel.Listen: for the same reasons, a frame holding a fractional or exponent number, or a lone surrogate escape, ends the modelled loop with a `SyntaxError`, where the source hands the message on.
- ExportReducers.AddFlag: a pod's `exports`, `imports` and `midports` are plain maps, with no prototype. In the source `obj["__proto__"] = false` goes through the `__proto__` setter, which ignores `false`, so no entry is created; the model adds one.
- ExportReducers.Toggle: a missing name that an object inherits from `Object.prototype` (`toString`, `valueOf`, `constructor`, `hasOwnProperty`, `__proto__` and the like) reads as a truthy function in the source, so toggling it stores `false` (and for `__proto__` stores nothing); the model reads it as missing and stores `true`. `ToggleMissingTwice` and the toggle reducers inherit this.
- ExportReducers.PodStore: pods are values in the store's map. The in-place mutation of a pod object is an update of that map entry, so aliasing between pods is not modelled; the store holds none. A throwing reducer leaves the store unchanged, as a draft that throws is never committed.
- Canvas.VerifyConsistency: the loop comparing `keys[i]` with `keys2[i]` indexes a `Set`, reads `undefined` on both sides and can never fail, so it is left out. The same holds for `VerifyEdgeConsistency`. The order in which keys are visited does not change the answer and is not modelled; `console.error` is not modelled.
- Canvas.Store2Nodes: termination rests on a ranking of the child lists, a ghost argument that exists exactly when the tree has no cycle. A cyclic `getId2children` would recurse until the stack overflows, and that case is not modelled.
- Canvas.GetBestNode: `NaN` is modelled by requiring measured widths and heights. A node or a `from` without them is never a candidate, and comparisons involving `NaN` are false. `Infinity` is the absence of a best distance. Overflow of the squared distance is not modelled.
- NodeUtils.GetHelperLines: the reduce callback's eight checks touch the two axes' variables separately, so they are made axis by axis (`SnapVertical` then `SnapHorizontal`). The checks on each axis keep the source's order.
- NodeUtils.GetParams: `getHandleCoordsByPosition` reads reactflow's internal handle bounds. The handle coordinates on each side are a parameter (`Anchors`).
- React components and hooks (`useInitNodes` apart from its edge construction, `useJump`, `usePaste`, `useCut`, `CanvasImpl`, `ViewportInfo`, `NewPodButtons`, `ResizeIcon`) are user interface.
- The rest of `useInitNodes` is not modelled: `adjustLevel`, `updateView` and the provider's `synced` event.

## Findings

| source | as written | input that shows it | evidently intended | confidence | as-written member | corrected member |
|---|---|---|---|---|---|---|
| api/kernel.js:174 | `frames.length - i < 5` counts the delimiter among the five frames the message needs after it | `["<IDS|MSG>", sig, header, parent, metadata]` (delimiter plus four frames) passes the guard. Reading the missing content frame `frames[i + 5]` throws a `TypeError`: with a key the HMAC `update(undefined)` throws, and without one `undefined.toString()` does. | reject with `null` unless six frames (delimiter, signature, header, parent, metadata, content) start at the delimiter: `frames.length - i < 6` | high (not executed) | Codec.ShortMessageThrowsAsWritten | Codec.DecodeCases |
| api/kernel.js:511-572 | each `mapEval` places the pod's code inside a string literal of the kernel's language without escaping it (Python escapes only `"`) | Racket `(f "a")` arrives as `(f `; Julia `a"` arrives as `a`, `$x` interpolates, `\n1` arrives as `1` and `1\n 2` as `1\n2`; JavaScript `` ` `` ends the template, `${x}` interpolates and `1\r\n` arrives as `1\n`; Python `a\nb` arrives with a newline, and `a\` never closes the literal | escape the backslash, the delimiter's character and the interpolation character for each language, write a carriage return as `\r` where the language reads it as a line feed, and write Julia's line feeds as `\n`, so that the kernel receives the code as written | high (not executed) | Mapper.RacketQuoteBreaksOut | Mapper.MapEvalEscapedReadsBack |
| api/kernel.js:328-333 | the `for await` loop calls `deserializeMsg` with no `try`, so a decode that throws ends the loop | a message `[topic, "<IDS|MSG>", sig, header, parent, metadata]` reaches `frames[i + 5]` (see the row above), throws, and no later IOPub message is delivered | a message that cannot be decoded is reported as `null` and the loop goes on | high (not executed) | Kernel.ListenStopsAsWritten | Kernel.ListenCorrected |
