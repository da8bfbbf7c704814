# IC-RAG-Vector document store, modelled in Dafny

IC-RAG-Vector is a retrieval-augmented chat application on the Internet
Computer. This project models its document store and the web client's
state handling:

- **The vector database** (`backend/vdb/db.rs`, `backend/vdb/collection.rs`).
  It maps a collection name to a collection. Each collection holds:
  - document metadata keyed by file name;
  - a document counter;
  - the embedding points, with the text stored beside each;
  - a nearest-neighbour index generated from them.
- **The canister's document endpoints** (`backend/lib.rs`):
  `upload_file`, `update_document`, `delete_document` and `list_documents`.
  A caller's documents live in the collection named by the caller's principal.
- **The web client's state**:
  - the Redux stores for the knowledge base and the chat
    (`frontend/store/knowledgeSlice.ts`, `frontend/store/chatSlice.ts`);
  - the upload form (`frontend/components/knowledge/FileUploader.tsx`).

## Modelling choices

- Things that change in place become classes whose methods state the
  object's whole new state:
  - `Collection` and `Database` are classes;
  - `KnowledgeStore` and `ChatStore` each have one method per reducer;
  - `Uploader` holds the form's React state.
- Each class has a `State()` function that describes it as a value. The
  value-level functions (`Appended`, `Removed`, `Indexed`, `AfterFetch`, …)
  carry the lemmas that state what the operations promise.
- The database is a `map<string, Collection>`. Its `Valid()` requires that
  no collection object is shared by two names, because the Rust map owns its
  values.
- Loops in the source are `while` loops with invariants:
  - the scan of `find`;
  - the copy loop of `insert_into_collection`;
  - the hit loop of `query`;
  - the key collection and the stable sort by `created_at` of `get_docs`.
- Iterating over a Rust `HashMap` gives an unspecified order. Each listing is
  therefore specified by the ghost predicate `Lists`: every matching document
  appears exactly once, in some order.
- The HNSW index is the value `Index(points, values)`: the inputs
  `generate_index` was given. A ranked search over an index is a function
  parameter.
- A 32-bit float is kept as its bit pattern. `f32::from_le_bytes` only
  reinterprets bits, so no floating point is needed.
- Rust's `String::from_utf8` is modelled in full. `Utf8.Decode` and
  `Utf8.Encode` come with both round-trip lemmas, so "the bytes are not UTF-8"
  is a precise condition.
- `update_document` calls `unwrap` on that conversion, so invalid bytes make
  it panic. Its result type is `Reply`, whose `Trapped` case stands for the
  panic and the rollback of the state that follows.
- Platform inputs are parameters:
  - the caller (`ic_cdk::caller`);
  - the clock (`ic_cdk::api::time`, `Date.now()`);
  - whether the client has an actor;
  - the canister's reply to a client call.
- The web client's JavaScript string operations are written out in
  `JsText`:
  - `split('.')` and `join('.')`, with both round trips;
  - `slice(0, -1)`;
  - `Number.prototype.toString` on a timestamp, with its injectivity.
- `||` treats the empty string as missing. This is modelled wherever the
  client uses it.
- The form passes its title in the position of `upload_file`'s `file_type`
  and its extension in the position of `title`. The model keeps this as
  written (`FileUploader.SubmitCall`, `FileUploader.SubmitCallSpec`).
- The form's extensions (`doc`, `jpg`, …) differ from the backend's whitelist
  (`pdf`, `txt`, `docs`, `image`). This too is kept as written.

## Model

| member | source | states |
|---|---|---|
| Base.FindFirst | frontend/store/knowledgeSlice.ts:144 | `Array.prototype.find` as an index: the element found satisfies the test and no earlier one does; None means no element does |
| Base.FilterMembers | frontend/store/knowledgeSlice.ts:202 | `filter` keeps exactly the elements that pass the test |
| Base.FilterConcat | frontend/store/knowledgeSlice.ts:202 | `filter` keeps order: filtering a concatenation filters each part |
| Base.FilterIdempotent | frontend/store/chatSlice.ts:144 | deleting twice by the same test is deleting once |
| Base.EnumerationLength | backend/vdb/db.rs:104 | a listing of a map's keys, each once, is as long as the map is large |
| Utf8.ScalarOf | backend/lib.rs:38-41 | a well-formed leading sequence encodes a Unicode scalar value that needs exactly that many bytes (no overlong forms or surrogates) |
| Utf8.DecodeEncode | backend/lib.rs:38-41 | every string's UTF-8 bytes are accepted by `from_utf8` and decode to that string |
| Utf8.EncodeDecode | backend/lib.rs:38-41 | bytes `from_utf8` accepts are the encoding of the text it returns |
| Utf8.DecodeSucceedsIffEncoding | backend/lib.rs:38-41 | `from_utf8(b)` returns `s` if and only if `b` is the UTF-8 encoding of `s` |
| VdbCollection.NewIsEmpty | backend/vdb/collection.rs:61-73 | `New`, the value of `Collection::new`: a new collection has no documents, a zero counter and the given dimension |
| VdbCollection.AppendedSpec | backend/vdb/collection.rs:114-131 | `Appended`, the value of `append`: it stores exactly the new metadata under the file name, with `Some(file_type)`, even over an existing entry; other entries stay; old points and values remain a prefix; the counter goes up by exactly one |
| VdbCollection.AppendedKeyed | backend/vdb/collection.rs:119-126 | `append` keeps every document stored under its own file name |
| VdbCollection.RemovedSpec | backend/vdb/collection.rs:151-162 | `Removed`, the value of `remove`: it deletes only the file's entry; points, values, counter and index are untouched |
| VdbCollection.RemoveUndoesAppend | backend/vdb/collection.rs:119-161 | removing what `append` stored under a fresh name restores the metadata |
| VdbCollection.NoFilterMatchesAll | backend/vdb/collection.rs:79-99 | `Matches` is the five tests of `find`'s loop; with every filter absent, every document matches |
| VdbCollection.MatchWithinDates | backend/vdb/collection.rs:90-95 | a match never lies outside a supplied date range |
| VdbCollection.Collection.constructor | backend/vdb/collection.rs:61-73 | `Collection::new`: the given points, values and dimension, the index built from them, no documents, counter 0, creation time `now` |
| VdbCollection.Collection.Find | backend/vdb/collection.rs:76-102 | `find` returns exactly the documents passing every supplied filter (title, file name as map key, file type, date bounds), each once |
| VdbCollection.Collection.Append | backend/vdb/collection.rs:104-132 | the new state is `Appended` of the old one, the file-name keying is kept, and the result is always Ok |
| VdbCollection.Collection.Query | backend/vdb/collection.rs:134-145 | exactly `min(limit, number of hits)` hits (none for `limit <= 0`), a prefix of the index search's ranking, stopping early when the search runs out |
| VdbCollection.Collection.BuildIndex | backend/vdb/collection.rs:146-148 | the new state is `Indexed` of the old one: the index is regenerated from the current points and values; nothing else changes |
| VdbCollection.Collection.Remove | backend/vdb/collection.rs:151-162 | the new state is `Removed` of the old one, and the result is always Ok |
| VdbDatabase.SortByCreatedAt | backend/vdb/db.rs:120-121 | the file names come back as a permutation of the input, ordered by their documents' `created_at` |
| VdbDatabase.InsertionPoint | backend/vdb/db.rs:121 | the slot after every name created no later than the new one and before the first later one, as a stable sort places it |
| VdbDatabase.InsertKeepsOrder | backend/vdb/db.rs:121 | inserting at that slot keeps the names distinct and sorted by creation time |
| VdbDatabase.Database.constructor | backend/vdb/db.rs:20-24 | `Database::new` has no collections |
| VdbDatabase.Database.CreateCollection | backend/vdb/db.rs:26-36 | an existing name gives UniqueViolation and no change; otherwise exactly that name is added, holding a new empty collection of the given dimension, and the other collections are unchanged |
| VdbDatabase.Database.InsertIntoCollection | backend/vdb/db.rs:38-64 | a missing collection gives NotFound and no change; otherwise the collection is `Appended` with all keys and the first `\|keys\|` values, and no other collection changes; needs `\|values\| >= \|keys\|` since `values[i]` is indexed directly |
| VdbDatabase.Database.BuildIndex | backend/vdb/db.rs:66-71 | a missing collection gives NotFound and no change; otherwise only that collection's index is rebuilt |
| VdbDatabase.Database.Query | backend/vdb/db.rs:73-93 | a missing collection gives "Collection not found" (`VdbError.Message` holds each error's `Display` text); a query of the wrong length gives "query malformed"; otherwise exactly `min(limit, number of hits)` hits (none for `limit <= 0`), a prefix of the search's ranking |
| VdbDatabase.Database.DeleteCollection | backend/vdb/db.rs:95-101 | Ok exactly when the name was present; the name and nothing else is gone |
| VdbDatabase.Database.GetAllCollections | backend/vdb/db.rs:103-105 | every collection name exactly once |
| VdbDatabase.Database.GetDocs | backend/vdb/db.rs:107-124 | a missing collection gives NotFound; otherwise every document exactly once, ordered by non-decreasing `created_at` |
| VdbDatabase.Database.GetDocsByQuery | backend/vdb/db.rs:126-130 | a missing collection gives NotFound; otherwise exactly the documents `find` matches |
| VdbDatabase.Database.RemoveDocumentFromCollection | backend/vdb/db.rs:132-150 | NotFound, with no change, when the collection or the file is missing; otherwise only that file's metadata goes and that collection's index is rebuilt |
| Canister.FileSize | backend/lib.rs:43 | `data.len() as u64`: the length itself whenever it fits 64 bits |
| Canister.BytesToVector | backend/lib.rs:31-35 | one word per whole group of four bytes, read little-endian; a short tail is dropped |
| Canister.VectorRoundTrip | backend/lib.rs:31-35 | decoding the little-endian bytes of a vector gives the vector back |
| Canister.UploadStoresDocument | backend/lib.rs:47-60 | `UploadTarget` and `WithDocument` are the collection before and after: after an upload the file's metadata is exactly the uploaded one and the caller's other documents are untouched; a first upload creates a collection of dimension 1000 holding only that file |
| Canister.StoreDocument | backend/lib.rs:55-58 | insert with the one vector and the text, then rebuild the index; only the caller's collection changes |
| Canister.UploadFile | backend/lib.rs:12-64 | Unauthorized for the anonymous caller, then FileTypeNotSupported outside {pdf, txt, docs, image} (`IsSupportedFileType`), then InvalidInput for non-UTF-8 bytes, each without touching the database; otherwise "Doc … upload success!" with the document stored in the caller's collection, which is created with dimension 1000 if absent |
| Canister.FileNameQueryFinds | backend/lib.rs:100-109 | the file-name lookup finds nothing exactly when the file is not stored |
| Canister.UpdateReplacesDocument | backend/lib.rs:112-125 | after remove-then-insert exactly one entry is stored under the file name, holding the new title, type, size and time; the other entries and the key set are unchanged |
| Canister.UpdateDocument | backend/lib.rs:67-129 | Unauthorized for the anonymous caller; a trap on non-UTF-8 bytes; NotFound for a missing collection or file; otherwise the success message and the caller's collection with the document removed and re-inserted; nothing changes on an error or a trap |
| Canister.DeleteDocument | backend/lib.rs:132-148 | Unauthorized for the anonymous caller; otherwise exactly `remove_document_from_collection` on the caller's collection, with the success message |
| Canister.Paginate | backend/lib.rs:175-184 | the page is empty when the offset is past the end; otherwise it is the `min(limit, total - offset)` documents from the offset on |
| Canister.PaginateAsWrittenTraps | backend/lib.rs:175-184 | `PaginateAsWritten` is the slicing as written; with `usize` arithmetic the slice panics exactly when the offset is inside the list and `offset + limit` reaches 2^32; otherwise the page is the intended one |
| Canister.PaginateOverflowExample | backend/lib.rs:181 | two documents, offset 1 and limit 2^32 - 1: the code panics, while the intended page is the second document |
| Canister.PagesCoverList | backend/lib.rs:175-184 | paging from an offset with one page size, until the first empty page, returns every document from there exactly once, in order |
| Canister.ListDocuments | backend/lib.rs:150-186 | Unauthorized for the anonymous caller; NotFound without a collection; otherwise the page (default limit 10, offset 0) of all the caller's documents sorted by `created_at` |
| JsText.Decimal | frontend/store/chatSlice.ts:104 | `toString` of a timestamp: one or more digits, no leading zero |
| JsText.DecimalRoundTrip | frontend/store/chatSlice.ts:104 | reading the digits back gives the number |
| JsText.DecimalInjective | frontend/components/knowledge/FileUploader.tsx:111-112 | different timestamps give different digit strings |
| JsText.FirstDot | frontend/components/knowledge/FileUploader.tsx:112 | the position of the first '.', with no dot before it, and None exactly when there is no dot |
| JsText.Split | frontend/components/knowledge/FileUploader.tsx:57 | `split('.')` gives at least one piece, none containing a dot |
| JsText.JoinSplit | frontend/components/knowledge/FileUploader.tsx:57 | `split('.').join('.')` gives the name back |
| JsText.SplitJoin | frontend/components/knowledge/FileUploader.tsx:112 | splitting a join of dot-free pieces gives the pieces back |
| JsText.StemAndLast | frontend/components/knowledge/FileUploader.tsx:57 | a name with a dot is `split('.').slice(0, -1).join('.')`, a dot, then a dot-free last piece; a name without a dot has an empty stem |
| FileUploader.ExtensionOfAccepted | frontend/components/knowledge/FileUploader.tsx:5-24 | `Extension` is `MIME_TYPE_MAP[type] \|\| 'unknown'`; the accepted MIME types are exactly the mapped ones, each with a real, dot-free extension; every other type gets "unknown" |
| FileUploader.DefaultTitleDropsExtension | frontend/components/knowledge/FileUploader.tsx:57-58 | the proposed title (`DefaultTitle`) is the name without its last extension; a name without a dot, or whose stem is empty, is kept whole |
| FileUploader.BaseNameIsPrefix | frontend/components/knowledge/FileUploader.tsx:112 | `split('.')[0]` is dot-free and is the name up to its first dot, or the whole name |
| FileUploader.UniqueFilenameParts | frontend/components/knowledge/FileUploader.tsx:108-112 | the unique name (`UniqueFilename`: base before the first dot, `_`, the timestamp's digits, `.`, the extension) splits into `base_timestamp` and the extension, so its own proposed title would be `base_timestamp` |
| FileUploader.UniqueFilenameInjective | frontend/components/knowledge/FileUploader.tsx:111-112 | the same file uploaded at two different milliseconds gets two different names |
| FileUploader.SubmitCallSpec | frontend/components/knowledge/FileUploader.tsx:115-120 | the call `SubmitCall` builds carries the title (or the file name when the title is empty) as the first argument, the extension second, a name ending in that extension, and the file's bytes |
| FileUploader.Uploader.constructor | frontend/components/knowledge/FileUploader.tsx:40-41 | no file and an empty title |
| FileUploader.Uploader.HandleFileChange | frontend/components/knowledge/FileUploader.tsx:45-59 | no file does nothing; an unaccepted type gives the error message and leaves file and title unchanged; an accepted file is selected and the title proposed from its name |
| FileUploader.Uploader.SetTitle | frontend/components/knowledge/FileUploader.tsx:191 | only the title changes |
| FileUploader.Uploader.Cancel | frontend/components/knowledge/FileUploader.tsx:204-207 | file and title are reset |
| FileUploader.Uploader.HandleSubmit | frontend/components/knowledge/FileUploader.tsx:97-134 | without a file or an actor nothing is sent and nothing changes; a failure to read the file sends nothing; otherwise the upload call is made; on a success reply the form is reset; on an error reply, a rejected call or a failed read it keeps its contents and the parent gets the error's text |
| KnowledgeSlice.FromMetadata | frontend/store/knowledgeSlice.ts:38-44 | the client's document has the listed file name, title and size; its type is the listed one, or "unknown" when none or an empty one was sent; its time is `TimeOfNanos` of the listed creation time, so always a valid date |
| KnowledgeSlice.TimeOfNanos | frontend/store/knowledgeSlice.ts:43 | the intended time conversion: the canister's nanoseconds as whole milliseconds, always within the range of a `Date` |
| KnowledgeSlice.TimeAsWrittenInvalid | frontend/store/knowledgeSlice.ts:43 | as written (`TimeAsWritten`, `created_at * 1000`), every creation time later than 2.4 hours after the epoch lies outside the range of a `Date` |
| KnowledgeSlice.TimeAsWrittenExample | frontend/store/knowledgeSlice.ts:43 | a creation time of November 2023 gives an invalid date as written, and 1 700 000 000 000 ms as intended |
| KnowledgeSlice.FetchPayload | frontend/store/knowledgeSlice.ts:38-50 | one client document per listed one, in the same order, each exactly `FromMetadata` of its entry (file name, title, type, size and time); `hasMore` is true exactly when the batch is as long as the limit |
| KnowledgeSlice.SelectSelectedDocument | frontend/store/knowledgeSlice.ts:225-228 | a document exactly when one has the selected file name, and then the first document with that name |
| KnowledgeSlice.InfiniteScrollStep | frontend/store/knowledgeSlice.ts:161-175 | when the loaded list is the first `(currentPage - 1) * pageSize` documents, a load-more fetch at that offset keeps it so; when it reports no more, the whole list is loaded |
| KnowledgeSlice.FirstPageStartsScroll | frontend/pages/KnowledgeBasePage.tsx:82-87 | a fresh fetch at offset 0 from page 1 starts that invariant |
| KnowledgeSlice.KnowledgeStore.constructor | frontend/store/knowledgeSlice.ts:7-16 | the initial state: no documents, no selection, not loading, no error, `hasMore`, page 1, page size 10 |
| KnowledgeSlice.KnowledgeStore.SetSelectedDocument | frontend/store/knowledgeSlice.ts:127-129 | only the selection changes |
| KnowledgeSlice.KnowledgeStore.ClearDocuments | frontend/store/knowledgeSlice.ts:131-136 | documents, selection, page counter and `hasMore` are reset; the page size stays |
| KnowledgeSlice.KnowledgeStore.ResetPagination | frontend/store/knowledgeSlice.ts:138-141 | only the page counter and `hasMore` change |
| KnowledgeSlice.KnowledgeStore.UpdateDocumentTitle | frontend/store/knowledgeSlice.ts:143-148 | only the first document with that file name is retitled; without one nothing changes |
| KnowledgeSlice.KnowledgeStore.SetPageSize | frontend/store/knowledgeSlice.ts:150-152 | only the page size changes |
| KnowledgeSlice.KnowledgeStore.Pending | frontend/store/knowledgeSlice.ts:157-160 | loading, no error, nothing else changes |
| KnowledgeSlice.KnowledgeStore.Rejected | frontend/store/knowledgeSlice.ts:176-179 | not loading, the error recorded, the documents unchanged |
| KnowledgeSlice.KnowledgeStore.FetchFulfilled | frontend/store/knowledgeSlice.ts:161-175 | the new state is `AfterFetch` of the old one: the batch is appended or replaces the list; `hasMore` is taken over; the page counter goes up exactly when the batch is not empty; loading is cleared |
| KnowledgeSlice.KnowledgeStore.UploadFulfilled | frontend/store/knowledgeSlice.ts:186-189 | the new document becomes the first, the others keep their order |
| KnowledgeSlice.KnowledgeStore.DeleteFulfilled | frontend/store/knowledgeSlice.ts:200-206 | every document with the file name goes, the others keep their order; the selection is cleared exactly when it was that file |
| ChatSlice.ChatMessages | frontend/store/chatSlice.ts:47-58 | the history sent: every stored message with its content and its role as "user" or "system", then the new content as a user message; one longer than the conversation |
| ChatSlice.SendMessage | frontend/store/chatSlice.ts:35-96 | a missing conversation or an error reply gives "Failed to send message"; a found conversation with an Ok reply succeeds, pairing the user message with the canister's answer |
| ChatSlice.HistoryKeepsExchange | frontend/store/chatSlice.ts:172-180 | after a fulfilled send the next history is the previous one, then the answer as a system message, then the new content |
| ChatSlice.NewConversation | frontend/store/chatSlice.ts:99-119 | the title given or "New Conversation", no messages, both times `now`, the id the decimal digits of `now` (they read back as `now`) |
| ChatSlice.NewConversationIdsDiffer | frontend/store/chatSlice.ts:104 | conversations created at different milliseconds have different ids |
| ChatSlice.CurrentAfterDelete | frontend/store/chatSlice.ts:145-147 | the current id is kept unless it was deleted; otherwise it becomes the first remaining id, or null when none remains or that id is empty |
| ChatSlice.DeletedIdGone | frontend/store/chatSlice.ts:143-148 | after a delete exactly the other conversations remain, and the current id never names the deleted one |
| ChatSlice.SelectCurrentConversation | frontend/store/chatSlice.ts:196-199 | a conversation exactly when one has the current id, and then the first one with that id |
| ChatSlice.ChatStore.constructor | frontend/store/chatSlice.ts:27-32 | no conversations, none current, not loading, no error |
| ChatSlice.ChatStore.SetCurrentConversation | frontend/store/chatSlice.ts:126-128 | only the current id changes |
| ChatSlice.ChatStore.ClearConversations | frontend/store/chatSlice.ts:130-133 | no conversations and none current; the flags stay |
| ChatSlice.ChatStore.UpdateConversationTitle | frontend/store/chatSlice.ts:135-141 | only the first conversation with the id is retitled and timestamped; without one nothing changes |
| ChatSlice.ChatStore.DeleteConversation | frontend/store/chatSlice.ts:143-148 | every conversation with the id goes, the others keep their order, and the current id moves on as `CurrentAfterDelete` says |
| ChatSlice.ChatStore.Pending | frontend/store/chatSlice.ts:153-156 | loading, no error, nothing else changes |
| ChatSlice.ChatStore.Rejected | frontend/store/chatSlice.ts:162-165 | not loading, the error recorded, the conversations unchanged |
| ChatSlice.ChatStore.CreateFulfilled | frontend/store/chatSlice.ts:157-161 | the conversation goes last and becomes current |
| ChatSlice.ChatStore.SendFulfilled | frontend/store/chatSlice.ts:172-180 | the first conversation with the id gets the user message and then the answer, and is timestamped; without one only the loading flag changes |

## Left out

- The HNSW index and cosine similarity (`instant_distance`, `generate_index`, `cos_sim`) are left out because they are a library doing floating-point work. The index is the value of its inputs, and a search is a parameter.
- `f32` arithmetic is left out: vectors are kept as the bit patterns that `from_le_bytes` produces.
- `Storable` (CBOR encoding of a collection) is left out: it is a foreign library.
- The `thread_local!` `RefCell` global is left out: it is one `Database` object passed to each endpoint.
- `ic_cdk::println` output is left out, since it has no effect on state.
- Rust moves are not modelled: `append` drains the caller's vectors, and no caller uses them afterwards.
- `healthcheck` and the commented-out endpoints of `backend/lib.rs` are left out: they are not part of the document store.
- The `DimensionMismatch` case of the key/value count test is not claimed, because no code checks it. `InsertIntoCollection` states the requirement `|values| >= |keys|` instead, since the loop indexes `values[i]`.
- The HTTP, OpenAI, embedding, retriever and PDF code (`backend/client.rs`, `backend/vdb/embedding.rs`, `backend/vdb/retriever.rs`, `backend/extractor/pdf_file.rs`) is left out: it is network and I/O code.
- `backend/vdb/memory.rs` is left out: it is stable-memory plumbing.
- The async thunk bodies' network calls are left out: their replies are parameters.
- The regular-expression scraping of error strings in the thunks is left out. A rejected action carries whatever message it is given, and `sendMessage`'s rejection carries the generic message.
- The React components and pages are left out as UI. `KnowledgeBasePage`'s offset formula appears only in the infinite-scroll lemmas.
- `formatFileSize` is left out: it formats floating-point values.
- ChatSlice.NewConversation: reads the clock once, where the source calls `Date.now()` three times. The id and both timestamps can therefore differ by a millisecond in the source.
- JsText.Decimal: models `Number.prototype.toString` only for integers below 10^21, since larger numbers use exponent notation. Clock readings are far below that.
- KnowledgeSlice.FromMetadata: converts the creation time as intended (nanoseconds to milliseconds, `TimeOfNanos`), not as written (`created_at * 1000`); see the second finding. It does not model the rounding of `Number(created_at)` to a double, since nanosecond times lie above 2^53. It keeps the time value rather than a `Date` object.
- `MIME_TYPE_MAP` lookups of inherited JavaScript object keys (such as `"constructor"`) are not modelled. A browser's MIME type never takes such a value.
- A stored message's role is `user` or `system`. A role object with neither key does not occur.
- KnowledgeSlice.InfiniteScrollStep: assumes the backend's list does not change between two fetches.
- KnowledgeSlice.InfiniteScrollStep: uses the corrected pagination, so it does not reach the overflow below: a page size is far below 2^32.
- FileUploader.Uploader.HandleSubmit: the text of a thrown or rejected error (`String(error)`) is a parameter, because it comes from the browser or the agent library.
- Canister.ListDocuments: takes the limit and the offset as unbounded integers and returns the intended page. The `usize` overflow of the code as written is the finding below.
- Canister.UploadFile: on a fresh collection the database's `collections` map gains a freshly allocated object. Its contract speaks about the database's value (`State()`), not about object identity.

## Findings

| source | as written | input that shows it | evidently intended | confidence | as-written member | corrected member |
|---|---|---|---|---|---|---|
| backend/lib.rs:181 | `offset + limit` in `usize`, 32 bits on the canister's WebAssembly target, overflows; a debug build panics, and a release build wraps below `offset`, so `docs[offset..end]` panics | two documents, `offset = 1`, `limit = 2^32 - 1` | the page holds the second document: `docs[offset .. min(offset + limit, total)]` with unbounded arithmetic (or a saturating add) | not executed | Canister.PaginateOverflowExample | Canister.Paginate |
| frontend/store/knowledgeSlice.ts:43 | `new Date(Number(doc.created_at) * 1000)` reads the canister's time, which `ic_cdk::api::time()` gives in nanoseconds, as seconds; the product exceeds the 8.64 × 10^15 ms range of a `Date`, so every listed document shows "Invalid Date" | a document created at 1 700 000 000 000 000 000 ns (November 2023) | the creation instant in milliseconds, `created_at / 1_000_000` | not executed | KnowledgeSlice.TimeAsWrittenExample | KnowledgeSlice.TimeOfNanos |
