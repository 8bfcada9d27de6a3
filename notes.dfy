/**
 * The note records the diary client keeps in its local list (src/App.js) and
 * the two list transforms it applies to them: dropping a deleted note
 * (`prevNotes.filter(note => note.id !== id)`) and attaching retrieval URLs to
 * a fresh listing (the `noteData.data.listNotes.items.map(...)` of fetchNotes).
 */
module NoteList {
  import opened Options

  /** An opaque, time-limited retrieval URL handed out by the object store. */
  type Url = string

  /** A note as the client holds it: the record's fields plus the URLs fetchNotes adds. */
  datatype Note = Note(
    id: string,
    title: string,
    content: string,
    imageKey: Option<string>,
    audioKey: Option<string>,
    imageUrl: Option<Url>,
    audioUrl: Option<Url>)

  /** JavaScript truthiness of a nullable string field: present and not "". */
  predicate Truthy(k: Option<string>) {
    k.Some? && k.value != ""
  }

  /** The notes whose id differs from `id`, in their original order. */
  function Without(notes: seq<Note>, id: string): (kept: seq<Note>)
    ensures |kept| <= |notes|
    ensures forall n :: n in kept ==> n in notes && n.id != id
    ensures forall n :: n in notes && n.id != id ==> n in kept
    decreases |notes|
  {
    if notes == [] then []
    else if notes[0].id == id then Without(notes[1..], id)
    else [notes[0]] + Without(notes[1..], id)
  }

  /** Filtering commutes with concatenation, so the kept notes keep their relative order. */
  lemma {:induction false} WithoutAppend(a: seq<Note>, b: seq<Note>, id: string)
    ensures Without(a + b, id) == Without(a, id) + Without(b, id)
    decreases |a|
  {
    if a == [] {
      assert a + b == b;
    } else {
      assert (a + b)[0] == a[0];
      assert (a + b)[1..] == a[1..] + b;
      WithoutAppend(a[1..], b, id);
    }
  }

  /** Filtering an already filtered list changes nothing. */
  lemma {:induction false} WithoutIdempotent(notes: seq<Note>, id: string)
    ensures Without(Without(notes, id), id) == Without(notes, id)
    decreases |notes|
  {
    if notes != [] {
      WithoutIdempotent(notes[1..], id);
    }
  }

  /** When no note carries `id`, filtering returns the list unchanged. */
  lemma {:induction false} WithoutAbsent(notes: seq<Note>, id: string)
    requires forall i :: 0 <= i < |notes| ==> notes[i].id != id
    ensures Without(notes, id) == notes
    decreases |notes|
  {
    if notes != [] {
      WithoutAbsent(notes[1..], id);
      assert notes == [notes[0]] + notes[1..];
    }
  }

  /** How many notes carry `id`. */
  function CountId(notes: seq<Note>, id: string): nat
    decreases |notes|
  {
    if notes == [] then 0
    else (if notes[0].id == id then 1 else 0) + CountId(notes[1..], id)
  }

  /** Filtering drops exactly the notes that carry `id`. */
  lemma {:induction false} WithoutLength(notes: seq<Note>, id: string)
    ensures |Without(notes, id)| == |notes| - CountId(notes, id)
    decreases |notes|
  {
    if notes != [] {
      WithoutLength(notes[1..], id);
    }
  }

  /** No two notes share an id (ids are assigned uniquely by the record store). */
  predicate UniqueIds(notes: seq<Note>) {
    forall i, j :: 0 <= i < j < |notes| ==> notes[i].id != notes[j].id
  }

  /** With unique ids, a present id is carried by exactly one note. */
  lemma {:induction false} CountUnique(notes: seq<Note>, id: string)
    requires UniqueIds(notes)
    requires exists i :: 0 <= i < |notes| && notes[i].id == id
    ensures CountId(notes, id) == 1
    decreases |notes|
  {
    if notes[0].id == id {
      CountAbsent(notes[1..], id);
    } else {
      var i :| 0 <= i < |notes| && notes[i].id == id;
      assert notes[1..][i - 1].id == id;
      CountUnique(notes[1..], id);
    }
  }

  /** A list without `id` counts it zero times. */
  lemma {:induction false} CountAbsent(notes: seq<Note>, id: string)
    requires forall i :: 0 <= i < |notes| ==> notes[i].id != id
    ensures CountId(notes, id) == 0
    decreases |notes|
  {
    if notes != [] {
      CountAbsent(notes[1..], id);
    }
  }

  /** Deleting a present id from a list with unique ids removes exactly one note. */
  lemma DeleteRemovesOne(notes: seq<Note>, id: string)
    requires UniqueIds(notes)
    requires exists i :: 0 <= i < |notes| && notes[i].id == id
    ensures |Without(notes, id)| == |notes| - 1
  {
    CountUnique(notes, id);
    WithoutLength(notes, id);
  }

  /**
   * One listed note after its URLs are resolved: `getUrl(key)` is asked for the
   * image key, then for the audio key, each only when the key is truthy; None
   * when a call throws.
   */
  function WithUrl(n: Note, getUrl: string -> Option<Url>): (r: Option<Note>)
    ensures r.None? <==> ((Truthy(n.imageKey) && getUrl(n.imageKey.value).None?)
                          || (Truthy(n.audioKey) && getUrl(n.audioKey.value).None?))
    ensures r.Some? ==> (r.value.id == n.id && r.value.title == n.title && r.value.content == n.content
                         && r.value.imageKey == n.imageKey && r.value.audioKey == n.audioKey)
    ensures r.Some? ==> r.value.imageUrl == (if Truthy(n.imageKey) then getUrl(n.imageKey.value) else n.imageUrl)
    ensures r.Some? ==> r.value.audioUrl == (if Truthy(n.audioKey) then getUrl(n.audioKey.value) else n.audioUrl)
  {
    var withImage :=
      if !Truthy(n.imageKey) then Some(n)
      else match getUrl(n.imageKey.value)
        case None => None
        case Some(u) => Some(n.(imageUrl := Some(u)));
    match withImage
    case None => None
    case Some(m) =>
      if !Truthy(m.audioKey) then Some(m)
      else match getUrl(m.audioKey.value)
        case None => None
        case Some(u) => Some(m.(audioUrl := Some(u)))
  }

  /**
   * The listing with URLs attached, in the listing's order; None when any
   * `getUrl` call throws (Promise.all rejects as a whole).
   */
  function WithUrls(listing: seq<Note>, getUrl: string -> Option<Url>): (r: Option<seq<Note>>)
    ensures r.None? <==> exists i :: 0 <= i < |listing| && WithUrl(listing[i], getUrl).None?
    ensures r.Some? ==> |r.value| == |listing|
    ensures r.Some? ==> forall i :: 0 <= i < |listing| ==> WithUrl(listing[i], getUrl) == Some(r.value[i])
    decreases |listing|
  {
    if listing == [] then Some([])
    else match (WithUrl(listing[0], getUrl), WithUrls(listing[1..], getUrl))
      case (Some(first), Some(rest)) =>
        assert forall i :: 1 <= i < |listing| ==> listing[i] == listing[1..][i - 1];
        Some([first] + rest)
      case (None, _) => None
      case (_, None) =>
        var i :| 0 <= i < |listing[1..]| && WithUrl(listing[1..][i], getUrl).None?;
        assert WithUrl(listing[i + 1], getUrl).None?;
        None
  }

  /** A note straight from the listing carries no URLs yet. */
  predicate Unresolved(n: Note) {
    n.imageUrl.None? && n.audioUrl.None?
  }

  /**
   * After a successful resolution, a listed note has an image URL exactly when
   * it has a truthy image key, and an audio URL exactly when it has a truthy
   * audio key; ids keep their positions.
   */
  lemma UrlsExactlyForKeys(listing: seq<Note>, getUrl: string -> Option<Url>, i: nat)
    requires forall j :: 0 <= j < |listing| ==> Unresolved(listing[j])
    requires i < |listing|
    requires WithUrls(listing, getUrl).Some?
    ensures var fetched := WithUrls(listing, getUrl).value;
            && fetched[i].id == listing[i].id
            && (fetched[i].imageUrl.Some? <==> Truthy(listing[i].imageKey))
            && (fetched[i].audioUrl.Some? <==> Truthy(listing[i].audioKey))
  {
  }
}
