# Chat service model

A Dafny model of the chat service of DevLog (`src/service/chatGlobal.js`): posting chat
messages, toggling likes, posting comments, and the three read queries over the `chat` and
`comentario` collections. The hosted document store is replaced by an in-memory store, the
`Store` class:

- `chat` maps each message id to its `Message` record;
- `order` lists the message ids in the collection's document order;
- `comments` holds the `comentario` collection in document order.

A `Message` holds the caller's opaque fields (author handle under `"usertag"`, display name,
body, ...), `createdAt`, `likes`, an optional `likesBy` list, `comentarios` and
`comentariosText`. A `Comment` holds its id, the parent `post` id, the text, the author's
handle and display name, and `createdAt`.

Files, one module each:

- `chat_types.dfy` (`ChatTypes`): the records and small value types.
- `likes.dfy` (`Likes`): the like toggle as a pure transition on one message, the
  `likesBy.filter(...)` list operation, and the counter invariant `likes == |likesBy|` with
  no duplicate likers.
- `queries.dfy` (`Queries`): the three projections over one snapshot. The comment query is a
  loop that pushes matching documents, as in the source. The chat stream is an insertion sort
  on `createdAt`. The user query is a filter on `usertag`.
- `chat_service.dfy` (`ChatService`): the `Store` class with `CreateMessage`
  (`enviarMensajeAfirebase`), `DarLike` (`darLike`) and `PostComment`
  (`enviarComentarioAlPost`), plus the store-wide invariants the operations keep.

Each writing operation takes the store-assigned id and the server timestamp as parameters.
Each store write that can fail takes a flag saying whether it fails. The operations return an
`Outcome`: `Resolved`, or `Rejected` when the call's promise would reject.

Two details of `darLike` that the model keeps as the code has them:

- Only the like branch of `darLike` catches a failed write (lines 56-63). A failed unlike
  write (lines 66-69) is not caught, so the call rejects and `DarLike` returns `Rejected`.
- `likesBy` is an array that line 59 appends to and line 68 filters in order; the model keeps
  that order.

## Model

| member | source | states |
|---|---|---|
| `ChatService.NewMessage` | src/service/chatGlobal.js:27-34 | the stored message keeps every caller field except the five names the service sets itself; it gets the server time as `created_at`, `likes` 0, an empty `likesBy`, `comentarios` 0 and an empty `comentarios_text`, so the like invariant holds from the start |
| `ChatService.Store.CreateMessage` | src/service/chatGlobal.js:25-35 | adds exactly one message under the fresh id and nothing else; that message is the last entry of the next chat snapshot; a rejected write rejects the call and changes nothing; keeps the like invariant of all messages; keeps comment counters in sync when no comment was posted to that id before |
| `ChatService.OrphanCommentsBreakSync` | src/service/chatGlobal.js:25-34 | a message created under an id that already has comments starts with a counter of 0, which is out of sync with those comments |
| `Likes.Without` | src/service/chatGlobal.js:68 | the filtered list holds exactly the entries that differ from the user, and is no longer than the original |
| `Likes.WithoutAbsent` | src/service/chatGlobal.js:68 | filtering out a user who is not listed returns the list unchanged |
| `Likes.WithoutAppend` | src/service/chatGlobal.js:68 | filtering distributes over concatenation, so the kept entries stay in their order |
| `Likes.WithoutUnique` | src/service/chatGlobal.js:68 | removing a user listed once from a duplicate-free list shortens it by one and keeps it duplicate-free |
| `Likes.Toggle` | src/service/chatGlobal.js:55-69 | after one toggle the user is a liker exactly when they were not one before; only `likes` and `likesBy` change, and `likesBy` is then present |
| `Likes.ToggleKeepsConsistent` | src/service/chatGlobal.js:55-69 | if `likes == |likesBy|` and no user is listed twice, both still hold after a toggle, so `likes` never goes negative |
| `Likes.ToggleTwice` | src/service/chatGlobal.js:55-69 | two toggles by the same user restore `likes` and the set of likers; if the user was not a liker, the liker list itself is restored; no other field moves |
| `Likes.ToggleScenario` | src/service/chatGlobal.js:55-69 | from an empty message: u1 likes (1, [u1]), u2 likes (2, [u1, u2]), u1 toggles again (1, [u2]) |
| `ChatService.Store.DarLike` | src/service/chatGlobal.js:48-74 | a missing message changes nothing and the call resolves; for a non-liker, `likes` goes up by 1 and the user is appended to `likesBy` (a missing `likesBy` is read as empty); for a liker, `likes` goes down by 1 and every occurrence of the user is filtered out; only that message's `likes` and `likesBy` change; a failed like write is swallowed and a failed unlike write rejects, both with no change; keeps both store invariants |
| `ChatService.ToggleKeepsChatInvariants` | src/service/chatGlobal.js:57-69 | a toggle on one stored message keeps every message's like invariant and leaves every comment counter in sync |
| `ChatService.Store.PostComment` | src/service/chatGlobal.js:76-99 | appends exactly one comment with `post = id` whether or not the parent exists; raises the parent's `comentarios` by 1 only when the parent exists and the update succeeds, changing nothing else; a rejected comment write rejects the call and changes nothing; keeps the like invariant, and keeps comment counters in sync unless the counter update fails |
| `ChatService.CountCommentKeepsLikes` | src/service/chatGlobal.js:92-94 | raising one message's comment counter keeps every message's like invariant |
| `ChatService.CommentKeepsSync` | src/service/chatGlobal.js:77-98 | a stored comment plus the raise of its parent's counter keeps every counter equal to its number of comments; a comment on a missing post keeps them in sync with no counter moving |
| `ChatService.CommentUnderCount` | src/service/chatGlobal.js:91-97 | when the counter update fails after the comment is stored, the parent's counter is one short of its comments |
| `Queries.CommentsOf` | src/service/chatGlobal.js:103 | the result holds exactly the snapshot's comments whose `post` is the id |
| `Queries.GetComentariosDelPost` | src/service/chatGlobal.js:101-114 | the list built by the push loop equals the `post == id` selection of the snapshot, so it holds exactly the comments of that post |
| `Queries.CommentsOfAppend` | src/service/chatGlobal.js:103-109 | the comment query splits over concatenated snapshots, so matching comments keep their order |
| `Queries.CommentsOfSnoc` | src/service/chatGlobal.js:78-84 | a comment appended to the model's collection is added to its own post's query, after the comments already there, and appears in no other post's query |
| `Queries.InsertByCreationPermutes` | src/service/chatGlobal.js:118 | inserting a message into the ordered stream adds exactly that message and loses nothing |
| `Queries.InsertByCreationBounded` | src/service/chatGlobal.js:118 | insertion adds nothing created after a bound that everything inserted respects |
| `Queries.InsertByCreationSorted` | src/service/chatGlobal.js:118 | inserting into a list ordered by `created_at` keeps it ordered |
| `Queries.ChatStream` | src/service/chatGlobal.js:116-128 | the stream is ordered by `created_at` ascending and is a permutation of the chat collection |
| `Queries.ChatStreamAppendLatest` | src/service/chatGlobal.js:118-126 | a message created no earlier than every other message comes last in the next stream, with the rest of the stream unchanged |
| `Queries.ChatStreamOfSorted` | src/service/chatGlobal.js:118 | a collection already ordered by `created_at` is delivered as it is |
| `Queries.ChatStreamIdempotent` | src/service/chatGlobal.js:118 | ordering the stream again changes nothing |
| `Queries.PostsOfUser` | src/service/chatGlobal.js:139-151 | the result holds exactly the snapshot's messages whose `usertag` is the given handle |
| `Queries.PostsOfUserAppend` | src/service/chatGlobal.js:141-149 | the user query splits over concatenated snapshots, so matching messages keep their order |
| `Queries.ProjectAsWritten` | src/service/chatGlobal.js:120-125 | the delivered entry carries the stored data, and its id is the document id exactly when the stored fields have no `id` field or it equals the document id |
| `Queries.ProjectionHidesDocumentId` | src/service/chatGlobal.js:143-148 | some message is delivered under an id other than its document's |
| `ChatService.Store.ChatSnapshot` | src/service/chatGlobal.js:119-125 | the snapshot lists every message once, in document order, each under the id of the document that holds it and with that document's data |
| `ChatService.Store.StreamAddressesStore` | src/service/chatGlobal.js:118-126 | every entry of the ordered stream names a stored message and carries its data, so a like or comment sent to that id reaches that message |

## Left out

- The document store SDK and `db` are not part of this model. `addDoc`, `getDoc`, `updateDoc`
  and `increment` become updates of the `Store` fields. Each call is one atomic step.
- Concurrency: the read-then-write race of `darLike` is not modelled. Two toggles on one
  message can overwrite each other's `likesBy` in the source. The model runs calls one at a
  time.
- `serverTimestamp()` becomes the `now` parameter. Pending server timestamps in local
  snapshots are not modelled.
- Store ids become parameters. The model requires them to be fresh, as the store guarantees.
- `onSnapshot` live delivery, callbacks, the unsubscribe handle of `getComentariosDelPost`
  and the error callbacks are not modelled. Each query is the list one snapshot delivers.
- `console.log` and `console.error` output is not modelled. A missing message or a swallowed
  write failure simply changes nothing.
- A failing `getDoc` is not modelled. Neither are store errors other than the failing writes
  the flags select.
- Field values: caller fields are modelled as strings. `likes` and `comentarios` are
  integers that are always present. A missing counter reads as 0, which is what `increment`
  writes on a missing field. Non-numeric counters and a non-array `likesBy` are not modelled.
- `comentarios_text` is stored as an empty list and is otherwise unused, as in the source.
- The query does the `where` filter store-side; the model does it inside
  `GetComentariosDelPost`'s loop. The result is the same.
- Queries.ChatStream: the store breaks `created_at` ties by document id. The model breaks
  them by document order, which stands for the store's id order. `orderBy` also drops
  documents without `created_at`; in the model every message has one.
- ChatService.Store.CreateMessage: new documents go last in the document order. In the
  store, their place depends on the randomly assigned id. Its contract gives the new chat
  snapshot. The effect on the ordered stream follows from `Queries.ChatStreamAppendLatest`
  and is not restated in the method's contract.
- Queries.CommentsOfSnoc: a new comment goes last in the model's document order, so it comes
  last in its post's query. In the store, `addDoc` (line 78) gives it a random id, and the
  query at line 103 has no `orderBy`, so matches arrive in document-id order and the new
  comment can land anywhere in the list.
- ChatService.Store.PostComment: appends the new comment at the end of `comments`. In the
  store, the comment's place in the collection follows its random id.
- Queries.GetComentariosDelPost: the comment projection `{ id: doc.id, ...doc.data() }` is
  taken to deliver each comment under its own id. Comment documents never carry an `id`
  field (lines 78-84), so the override in the finding below cannot happen there.

## Findings

| source | as written | input that shows it | evidently intended | confidence | as-written member | corrected member |
|---|---|---|---|---|---|---|
| src/service/chatGlobal.js:120-125, 143-148 | each chat query result is built as `{ id: doc.id, ...doc.data() }`; the stored fields are spread after the id, so a stored field named `id` replaces the document id | `enviarMensajeAfirebase({ id: "other", usertag: "@a" })` stores a message whose entry in `cambiosEnElChat` and `obtenerPostsDeUsuarioById` carries id `"other"`, so `darLike("other", u)` sent from that entry misses the message | every entry carries its document's own id | low: depends on whether any caller passes an `id` field; not executed | `Queries.ProjectAsWritten`, `Queries.ProjectionHidesDocumentId` | `ChatService.Store.ChatSnapshot`, `ChatService.Store.StreamAddressesStore` |
