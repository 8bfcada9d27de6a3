# Dear-Diary notebook and note sharing, modelled in Dafny

This project models the two pieces of sequential logic in the Dear-Diary web
application.

- **The diary client's local notebook** (`src/App.js`). This is the `App`
  component's state: the ordered note list `notes`, the cursor
  `currentNoteIndex` of the page on display, and the new-note form `formData`.
  It changes through `addNote`, `deleteNoteById`, `turnPage`, `fetchNotes` and
  `handleImageChange`, and through the title and content inputs' `onChange`
  handlers. The model is the class `Diary.Notebook` with fields
  `notes`, `index` and `form`. Its methods update these fields in place, as the
  React setters do. The list transforms are functions in `NoteList`: the
  filter by id, and attaching URLs to a listing. The storage-key construction is
  in `StorageKeys`.
- **The sharing function** (`amplify/backend/function/shareNoteViaEmail/src/index.js`).
  It looks a note up by id, checks that the caller owns it, builds a plain-text
  email and sends it once. It replies with one of three texts. The model is the
  pure function `ShareNote.Handle`. It maps (store, lookup succeeds, note id,
  identity, recipient, send succeeds) to (reply, emails handed to the email
  service).

Remote collaborators are parameters:
- the auth session's token, present or absent;
- the GraphQL mutations and query, which succeed or throw;
- `uploadData`, whose upload the model treats as finished, successfully or not, when the `await` returns (see `Diary.Notebook.AddNote` under "## Left out");
- `getUrl`, a function from key to an optional opaque URL;
- the uuids `uuidv4()` yields;
- the record-store lookup and the email send, which succeed or throw.

JavaScript truthiness is modelled where the source relies on it:
- `!formData.title` means the title is `""`;
- `if (note.imageKey)` means the key is present and not `""`.

Observations from the model:
- `fetchNotes` replaces the list but never adjusts the cursor. The cursor
  invariant ("below the list length when the list is non-empty") therefore
  survives a fetch only if the old cursor fits the new listing.
  `Diary.Notebook.FetchNotes` leaves the cursor as it was, so after a fetch it
  is valid exactly when it is below the new list's length or the list is empty.
  For a valid cursor on a non-empty list, the method states that it stays valid
  whenever the new list is no shorter. The application calls
  `fetchNotes` once, on mount, while the cursor is still 0, and in that case the
  invariant holds. In the model, where each operation runs atomically, every
  other operation keeps the invariant, and a successful
  delete re-establishes it whatever the cursor was before. The running
  application interleaves these operations, and can then break it (see
  "## Left out").
- In the handler, the owner check compares `Item.owner` with
  `identity.username` by strict equality. If both are undefined they compare
  equal, so the model keeps both as optional values. A null `event.identity`
  makes the owner comparison throw, which the handler turns into the generic failure
  reply. This only happens once the note has been found.
- The email body `Title: <title>\n\nContent: <content>` gives back its title and
  content verbatim whenever the title is a single line. That is sufficient but
  not necessary: what matters is that the title holds no `\n\nContent: `,
  which would be found first.
  `ShareNote.BodyAmbiguousWhenTitleHoldsLabel` shows two different notes whose
  bodies are the same.

## Model

| member | source | states |
|---|---|---|
| `StorageKeys.Split` | src/App.js:125 | `name.split(".")` yields at least one part, and no part contains the separator |
| `StorageKeys.JoinSplit` | src/App.js:125 | joining the parts of a split with the separator gives back the original string |
| `StorageKeys.SplitJoin` | src/App.js:125 | splitting a join of separator-free parts gives back those parts (the other half of the round trip) |
| `StorageKeys.SplitAround` | src/App.js:125 | splitting `a + sep + b` is splitting `a`, then splitting `b` |
| `StorageKeys.Extension` | src/App.js:125 | `split(".").pop()` contains no dot and is no longer than the file name |
| `StorageKeys.ExtensionOfDotted` | src/App.js:125 | for a stem, a dot and a dot-free extension, the extension is exactly that text |
| `StorageKeys.ExtensionOfUndotted` | src/App.js:125 | a file name without a dot is its own extension |
| `StorageKeys.NameEndsWithExtension` | src/App.js:125 | the extension is the text after the last dot of the name, or the whole name when it has no dot |
| `StorageKeys.ImageKey` | src/App.js:125-126 | the image key begins with the uuid followed by a dot and is exactly one character longer than the uuid and the extension together, so with `ImageKeyExtension` it is `uuid + "." + ext` |
| `StorageKeys.ImageKeyExtension` | src/App.js:125-126 | the image key's extension is the file name's extension, whatever the uuid |
| `StorageKeys.AudioKey` | src/App.js:137 | the audio key is the uuid followed by five more characters |
| `StorageKeys.AudioKeyExtension` | src/App.js:137 | the audio key's extension is always `webm` |
| `NoteList.Without` | src/App.js:199 | the kept notes are exactly the notes whose id differs from the deleted id |
| `NoteList.WithoutAppend` | src/App.js:199 | the filter commutes with concatenation, so the kept notes stay in their original relative order |
| `NoteList.WithoutIdempotent` | src/App.js:199 | deleting the same id twice gives the same list as deleting it once |
| `NoteList.WithoutAbsent` | src/App.js:199 | deleting an id no note carries leaves the list unchanged |
| `NoteList.WithoutLength` | src/App.js:199 | the filter removes exactly as many notes as carry the id |
| `NoteList.DeleteRemovesOne` | src/App.js:199 | when ids are unique, deleting a present id removes exactly one note |
| `NoteList.WithUrl` | src/App.js:93-103 | a listed note gains an image URL from `getUrl` when its image key is truthy, and likewise for audio; its other fields are unchanged; the step fails exactly when a needed `getUrl` throws |
| `NoteList.WithUrls` | src/App.js:92-104 | the resolved listing has the listing's length and order, note by note; it fails exactly when some note's resolution fails |
| `NoteList.UrlsExactlyForKeys` | src/App.js:94-101 | a listed note ends up with an image URL iff it has a truthy image key, and with an audio URL iff it has a truthy audio key |
| `Diary.ImageKeyFor` | src/App.js:121-126 | `imageKey` is non-null iff an image was chosen; it is then truthy and keeps the image's extension |
| `Diary.AudioKeyFor` | src/App.js:122-137 | `audioKey` is non-null iff an audio clip exists; it is then truthy with extension `webm` |
| `Diary.CreatedNoteGetsUrls` | src/App.js:121-161 | a created note, once listed, gets an image URL iff an image was attached and an audio URL iff a clip was recorded |
| `Diary.Notebook.constructor` | src/App.js:56-63 | the notebook starts with no notes, cursor 0 and an empty form, and the cursor is valid |
| `Diary.Notebook.SetTitle` | src/App.js:228-230 | the typed text replaces the form's title; content and image are kept |
| `Diary.Notebook.SetContent` | src/App.js:236-241 | the typed text replaces the form's content; title and image are kept |
| `Diary.Notebook.ChooseImage` | src/App.js:77-80 | the selected file replaces the form's image; title and content are kept |
| `Diary.RequestsWellFormed` | src/App.js:121-159 | in the requests addNote sends, every upload is the image's or the clip's and precedes createNote; createNote is the last request and carries exactly the supplied attachments' keys; it is sent iff validation, the token and every upload succeed |
| `Diary.Notebook.AddNote` | src/App.js:115-167 | the requests sent are exactly `Requests`: nothing for an incomplete form or a missing token; otherwise the image upload, then the audio upload, then createNote, stopping after the first failure; an incomplete form or a missing token changes nothing; uploads happen before the create call, which is the last request; createNote carries the keys for the image and clip that were supplied, and no others; a successful create appends the record, sets the cursor to the old length and clears the form; any failure leaves all state unchanged |
| `Diary.Notebook.TurnPage` | src/App.js:169-184 | on an empty list nothing moves; "next" increments only below the last note; "prev" decrements only above 0; other directions do nothing; the cursor stays within the list |
| `Diary.Notebook.DeleteNoteById` | src/App.js:186-211 | after a successful delete, the list is the filtered list and no note carries the id; the cursor is clamped to `max(0, length - 1)` when it is past the end, and is otherwise unchanged; it is valid afterwards; a missing token or a failed mutation changes nothing |
| `Diary.Notebook.FetchNotes` | src/App.js:82-109 | a successful fetch replaces the list with the resolved listing (same length and order); a missing token, a failed query or a failed `getUrl` leaves it unchanged; the cursor and the form are not touched; a valid cursor on a non-empty list stays valid when the new list is no shorter |
| `ShareNote.Handle` | amplify/backend/function/shareNoteViaEmail/src/index.js:5-42 | the reply is one of the three texts; it is "denied" iff the note is missing or the caller is not its owner; it is "shared" iff the caller owns the note and the send succeeds; exactly one email goes to `[recipient]`, with the fixed subject and body, iff the caller owns the note; otherwise no email is sent |
| `ShareNote.ReplyInjective` | amplify/backend/function/shareNoteViaEmail/src/index.js:19-40 | the three reply texts are pairwise different, so the reply determines the outcome |
| `ShareNote.NotFoundLooksLikeNotOwner` | amplify/backend/function/shareNoteViaEmail/src/index.js:16-19 | a missing note and a note owned by someone else give identical responses, with no email |
| `ShareNote.LookupByIdOnly` | amplify/backend/function/shareNoteViaEmail/src/index.js:10-16 | the response depends on the store only through the record at the note id |
| `ShareNote.BodyRoundTrip` | amplify/backend/function/shareNoteViaEmail/src/index.js:27 | the email body gives back a single-line title and any content verbatim |
| `ShareNote.BodyAmbiguousWhenTitleHoldsLabel` | amplify/backend/function/shareNoteViaEmail/src/index.js:27 | a title that contains the content label can make two different notes share one body |

## Left out

- Rendering: the JSX, the `styles` object, the keyframe stylesheet and `withAuthenticator` (src/App.js:213-573). These are presentation only.
- `useAudioRecorder` (src/App.js:17-53), which depends on MediaRecorder and microphone access. `AddNote` takes only whether an audio blob is present. The blob is not cleared after a note is added, so a caller passes the same flag again, as the source would.
- The `isFlipping` flag and the 500 ms `setTimeout` in `turnPage`. The cursor update is modelled as immediate. In the application, the bound is checked against the render's `currentNoteIndex` (src/App.js:175), but the increment applies to the latest value 500 ms later (src/App.js:176), and "next" stays enabled during the flip. Two quick "next" clicks from the second-to-last note therefore leave the cursor one past the end, and the page then reads a missing note. Likewise, "prev" is disabled only at index 0. Two quick "prev" clicks from index 1 both pass the check `currentNoteIndex > 0` (src/App.js:177) and both decrement, so the cursor reaches -1 and the page reads `notes[-1]`. The model types the cursor as a natural number and does not capture either race.
- React's deferred state updates. `addNote` sets the cursor from the `notes` of the render that started it. `deleteNoteById` clamps using the render's `currentNoteIndex`. The model runs each operation atomically, so these values are the state at the call. In the application, a page turn while a delete mutation is pending can leave the cursor past the end. For example, with 3 notes at index 1, press Delete and then Next: the cursor ends at 2 on a 2-note list. The cursor invariant is therefore a property of the atomic model only.
- Diary.Notebook.AddNote: the model reads `await uploadData(...)` (src/App.js:127, src/App.js:138) as waiting for the upload to finish, so that a failed upload stops addNote before createNote. In the storage library's current API, `uploadData` returns an upload task whose completion and failure are reported only through its `result` promise, which the source never awaits. The library is not part of this model. If that reading holds, a failed upload does not stop createNote as written, and the blob may still be in flight when the record is created. The upload-before-create guarantee then describes the intended order, not a guaranteed one.
- `fetchAuthSession`, `client.graphql`, `uploadData`, `getUrl` and `uuidv4` are parameters, as described above. The record that `createNote` returns is modelled as its input plus the id the store assigns.
- `Promise.all` parallelism in `fetchNotes`. Only its result is modelled: order-preserving, and all-or-nothing.
- The remote calls issued by `deleteNoteById` and `fetchNotes` are not logged. Only `addNote` returns its request log, because only there does the ordering of requests matter.
- `getAuthToken`'s own error catch is folded into the token parameter: a failed session fetch is an absent token.
- In the handler: the AWS SDK clients, the table name read from `process.env`, the placeholder sender address, and logging. The store is a map from id to record. It is passed by value and nothing is returned for it, so the handler cannot change it.
- A malformed event with no `arguments` makes the handler throw before its `try` block. The model takes `noteId` and `recipientEmail` as given strings.
- Concurrency between sessions, and server-side authorization of list and delete. These belong to the managed services.
