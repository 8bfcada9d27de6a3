/**
 * The diary's local notebook (the `App` component of src/App.js): the note
 * list, the cursor of the page on display and the new-note form, updated in
 * place by addNote, deleteNoteById, turnPage, fetchNotes and handleImageChange.
 * Every remote collaborator (auth session, GraphQL API, object storage) is a
 * parameter: a token that is present or absent, a call that succeeds or throws.
 */
module Diary {
  import opened Options
  import opened StorageKeys
  import opened NoteList

  /** The access token of the signed-in user's session (an opaque JWT). */
  type Token = string

  /** The image file picked in the form: its name and its MIME type. */
  datatype ImageFile = ImageFile(name: string, mimeType: string)

  /** The new-note form. */
  datatype FormData = FormData(title: string, content: string, image: Option<ImageFile>)

  /** The form as it starts out and as a successful addNote leaves it. */
  const EmptyForm := FormData("", "", None)

  /** The createNote mutation's input. */
  datatype NoteInput = NoteInput(title: string, content: string, imageKey: Option<string>, audioKey: Option<string>)

  /** A request addNote sends to a remote service, in the order it is sent. */
  datatype RemoteCall =
    | Upload(key: string, contentType: string)
    | CreateNote(input: NoteInput)

  /**
   * What the remote services answer during one addNote: the session token, the
   * two uuids `uuidv4()` yields, whether each upload succeeds, and the id the
   * record store assigns to the created note (None when createNote throws).
   */
  datatype AddServices = AddServices(
    token: Option<Token>,
    imageUuid: string,
    audioUuid: string,
    imageUploadOk: bool,
    audioUploadOk: bool,
    createdId: Option<string>)

  /** The `imageKey` addNote builds: a key exactly when an image was chosen. */
  function ImageKeyFor(image: Option<ImageFile>, uuid: string): (key: Option<string>)
    ensures key.Some? <==> image.Some?
    ensures key.Some? ==> Truthy(key) && Extension(key.value) == Extension(image.value.name)
  {
    match image
    case None => None
    case Some(file) =>
      ImageKeyExtension(uuid, file.name);
      Some(ImageKey(uuid, file.name))
  }

  /** The `audioKey` addNote builds: a key exactly when an audio clip was recorded. */
  function AudioKeyFor(recorded: bool, uuid: string): (key: Option<string>)
    ensures key.Some? <==> recorded
    ensures key.Some? ==> Truthy(key) && Extension(key.value) == "webm"
  {
    if recorded then
      AudioKeyExtension(uuid);
      Some(AudioKey(uuid))
    else None
  }

  /** `!formData.title || !formData.content`: the form is rejected before any request. */
  predicate Incomplete(form: FormData) {
    form.title == "" || form.content == ""
  }

  /** The input createNote receives for this form and these services. */
  function InputFor(form: FormData, recorded: bool, env: AddServices): NoteInput {
    NoteInput(form.title, form.content, ImageKeyFor(form.image, env.imageUuid), AudioKeyFor(recorded, env.audioUuid))
  }

  /** Whether addNote gets as far as sending createNote. */
  predicate ReachesCreate(form: FormData, recorded: bool, env: AddServices) {
    && !Incomplete(form)
    && env.token.Some?
    && (form.image.Some? ==> env.imageUploadOk)
    && (recorded ==> env.audioUploadOk)
  }

  /** Every createNote is the last request, and each attachment key it names was uploaded before it. */
  predicate UploadsPrecedeCreate(calls: seq<RemoteCall>) {
    forall i :: 0 <= i < |calls| && calls[i].CreateNote? ==>
      && i == |calls| - 1
      && (calls[i].input.imageKey.Some? ==> UploadedBefore(calls, i, calls[i].input.imageKey.value))
      && (calls[i].input.audioKey.Some? ==> UploadedBefore(calls, i, calls[i].input.audioKey.value))
  }

  predicate UploadedBefore(calls: seq<RemoteCall>, i: nat, key: string) {
    exists j :: 0 <= j < i && j < |calls| && calls[j].Upload? && calls[j].key == key
  }

  /**
   * The requests addNote sends, in order: nothing for an incomplete form or a
   * missing token; otherwise the image upload when an image was chosen, then
   * the audio upload when a clip was recorded, then createNote, stopping right
   * after the first request that fails.
   */
  function Requests(form: FormData, recorded: bool, env: AddServices): seq<RemoteCall> {
    if Incomplete(form) || env.token.None? then []
    else
      var image := if form.image.Some? then [Upload(ImageKey(env.imageUuid, form.image.value.name), form.image.value.mimeType)] else [];
      var audio := if recorded then [Upload(AudioKey(env.audioUuid), "audio/webm")] else [];
      if form.image.Some? && !env.imageUploadOk then image
      else if recorded && !env.audioUploadOk then image + audio
      else image + audio + [CreateNote(InputFor(form, recorded, env))]
  }

  /**
   * The request log is well formed: every upload is the image's or the clip's
   * and is sent before createNote, createNote is last and carries the keys of
   * the attachments supplied, and it is sent exactly when validation, the
   * token and every upload succeed.
   */
  lemma RequestsWellFormed(form: FormData, recorded: bool, env: AddServices)
    ensures var calls := Requests(form, recorded, env);
            && UploadsPrecedeCreate(calls)
            && (forall c :: c in calls && c.Upload? ==>
                  || (form.image.Some? && c == Upload(ImageKey(env.imageUuid, form.image.value.name), form.image.value.mimeType))
                  || (recorded && c == Upload(AudioKey(env.audioUuid), "audio/webm")))
            && (forall c :: c in calls && c.CreateNote? ==> c.input == InputFor(form, recorded, env))
            && ((exists c :: c in calls && c.CreateNote?) <==> ReachesCreate(form, recorded, env))
  {
    var calls := Requests(form, recorded, env);
    if ReachesCreate(form, recorded, env) {
      var input := InputFor(form, recorded, env);
      var last := |calls| - 1;
      assert calls[last] == CreateNote(input);
      assert input.imageKey.Some? ==> UploadedBefore(calls, last, input.imageKey.value) by {
        if input.imageKey.Some? { assert calls[0].Upload? && calls[0].key == input.imageKey.value; }
      }
      assert input.audioKey.Some? ==> UploadedBefore(calls, last, input.audioKey.value) by {
        if input.audioKey.Some? { assert calls[last - 1].Upload? && calls[last - 1].key == input.audioKey.value; }
      }
      assert calls[last] in calls;
    }
  }

  /**
   * Create-then-list: a note created from this form, once listed and resolved,
   * has an image URL exactly when an image was attached and an audio URL
   * exactly when a clip was recorded, because the keys addNote builds are truthy.
   */
  lemma CreatedNoteGetsUrls(id: string, form: FormData, recorded: bool, env: AddServices, getUrl: string -> Option<Url>)
    requires WithUrl(Note(id, form.title, form.content, InputFor(form, recorded, env).imageKey,
                          InputFor(form, recorded, env).audioKey, None, None), getUrl).Some?
    ensures var input := InputFor(form, recorded, env);
            var listed := WithUrl(Note(id, form.title, form.content, input.imageKey, input.audioKey, None, None), getUrl).value;
            && (listed.imageUrl.Some? <==> form.image.Some?)
            && (listed.audioUrl.Some? <==> recorded)
  {
  }

  class Notebook {
    var notes: seq<Note>
    var index: nat
    var form: FormData

    /** The cursor names a note whenever there is one (it is never negative, being a nat). */
    predicate CursorValid()
      reads this
    {
      |notes| > 0 ==> index < |notes|
    }

    /** The component's initial state: no notes, cursor 0, an empty form. */
    constructor ()
      ensures notes == [] && index == 0 && form == EmptyForm
      ensures CursorValid()
    {
      notes := [];
      index := 0;
      form := EmptyForm;
    }

    /** The title input's onChange: the typed text becomes the form's title. */
    method SetTitle(title: string)
      modifies this`form
      ensures form == old(form).(title := title)
    {
      form := form.(title := title);
    }

    /** The content textarea's onChange: the typed text becomes the form's content. */
    method SetContent(content: string)
      modifies this`form
      ensures form == old(form).(content := content)
    {
      form := form.(content := content);
    }

    /** handleImageChange: the first selected file (None when the selection is empty) becomes the form's image. */
    method ChooseImage(file: Option<ImageFile>)
      modifies this`form
      ensures form == old(form).(image := file)
    {
      form := form.(image := file);
    }

    /**
     * addNote: validate the form, fetch the token, upload the image and the
     * audio clip under fresh keys, create the record, then append it, move the
     * cursor to it and clear the form. Any failure leaves the state as it was.
     * Returns the requests sent, in order.
     */
    method AddNote(recorded: bool, env: AddServices) returns (calls: seq<RemoteCall>)
      modifies this
      ensures calls == Requests(old(form), recorded, env)
      ensures Incomplete(old(form)) || env.token.None? ==> calls == []
      ensures UploadsPrecedeCreate(calls)
      ensures forall c :: c in calls && c.Upload? ==>
                || (old(form).image.Some? && c == Upload(ImageKey(env.imageUuid, old(form).image.value.name), old(form).image.value.mimeType))
                || (recorded && c == Upload(AudioKey(env.audioUuid), "audio/webm"))
      ensures forall c :: c in calls && c.CreateNote? ==> c.input == InputFor(old(form), recorded, env)
      ensures (exists c :: c in calls && c.CreateNote?) <==> ReachesCreate(old(form), recorded, env)
      ensures var ok := ReachesCreate(old(form), recorded, env) && env.createdId.Some?;
              && (ok ==>
                    var input := InputFor(old(form), recorded, env);
                    && notes == old(notes) + [Note(env.createdId.value, input.title, input.content, input.imageKey, input.audioKey, None, None)]
                    && index == |old(notes)|
                    && form == EmptyForm)
              && (!ok ==> notes == old(notes) && index == old(index) && form == old(form))
      ensures ReachesCreate(old(form), recorded, env) && env.createdId.Some? ==> CursorValid()
      ensures old(CursorValid()) ==> CursorValid()
    {
      RequestsWellFormed(form, recorded, env);
      calls := [];
      if Incomplete(form) {
        return;
      }
      if env.token.None? {
        return;  // "No auth token" is thrown and caught
      }
      var imageKey: Option<string> := None;
      var audioKey: Option<string> := None;
      if form.image.Some? {
        imageKey := ImageKeyFor(form.image, env.imageUuid);
        calls := calls + [Upload(imageKey.value, form.image.value.mimeType)];
        if !env.imageUploadOk {
          return;
        }
      }
      if recorded {
        audioKey := AudioKeyFor(recorded, env.audioUuid);
        calls := calls + [Upload(audioKey.value, "audio/webm")];
        if !env.audioUploadOk {
          return;
        }
      }
      var input := NoteInput(form.title, form.content, imageKey, audioKey);
      calls := calls + [CreateNote(input)];
      if env.createdId.None? {
        return;
      }
      notes := notes + [Note(env.createdId.value, input.title, input.content, input.imageKey, input.audioKey, None, None)];
      index := |notes| - 1;
      form := EmptyForm;
    }

    /**
     * turnPage: on a non-empty list, "next" moves the cursor forward unless it is
     * on the last note and "prev" moves it back unless it is on the first; any
     * other direction, or an empty list, leaves it where it is.
     */
    method TurnPage(direction: string)
      modifies this`index
      ensures |notes| == 0 ==> index == old(index)
      ensures |notes| > 0 && direction == "next" && old(index) < |notes| - 1 ==> index == old(index) + 1
      ensures |notes| > 0 && direction == "prev" && old(index) > 0 ==> index == old(index) - 1
      ensures (!(|notes| > 0 && direction == "next" && old(index) < |notes| - 1)
               && !(|notes| > 0 && direction == "prev" && old(index) > 0)) ==> index == old(index)
      ensures old(CursorValid()) ==> CursorValid()
    {
      if |notes| == 0 {
        return;
      }
      if direction == "next" && index < |notes| - 1 {
        index := index + 1;
      } else if direction == "prev" && index > 0 {
        index := index - 1;
      }
    }

    /**
     * deleteNoteById: once the token is present and the deleteNote mutation
     * succeeds, drop every note with this id and, when the cursor is now past
     * the end, clamp it to the last note (or 0 on an empty list). Whatever the
     * cursor was before, it is valid after a successful delete.
     */
    method DeleteNoteById(id: string, token: Option<Token>, deleteOk: bool)
      modifies this`notes, this`index
      ensures var ok := token.Some? && deleteOk;
              && (ok ==> notes == Without(old(notes), id)
                         && index == (if old(index) >= |notes| then (if |notes| > 0 then |notes| - 1 else 0) else old(index)))
              && (!ok ==> notes == old(notes) && index == old(index))
      ensures token.Some? && deleteOk ==> CursorValid() && forall n :: n in notes ==> n.id != id
      ensures old(CursorValid()) ==> CursorValid()
    {
      if token.None? || !deleteOk {
        return;
      }
      var updated := Without(notes, id);
      if index >= |updated| {
        index := if |updated| - 1 > 0 then |updated| - 1 else 0;
      }
      notes := updated;
    }

    /**
     * fetchNotes: with a token and a successful listNotes query, replace the
     * list by the listing, in its order, each note with the URLs of its keys.
     * A missing token, a failed query or a failed getUrl leaves the list as it
     * was. The cursor is not adjusted.
     */
    method FetchNotes(token: Option<Token>, listing: Option<seq<Note>>, getUrl: string -> Option<Url>)
      modifies this`notes
      ensures var fetched := if token.Some? && listing.Some? then WithUrls(listing.value, getUrl) else None;
              && (fetched.Some? ==> notes == fetched.value && |notes| == |listing.value|)
              && (fetched.None? ==> notes == old(notes))
      ensures index == old(index) && form == old(form)
      ensures old(CursorValid()) && |old(notes)| > 0 && |notes| >= |old(notes)| ==> CursorValid()
    {
      if token.None? || listing.None? {
        return;
      }
      var fetched := WithUrls(listing.value, getUrl);
      if fetched.Some? {
        notes := fetched.value;
      }
    }
  }
}
