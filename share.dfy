/**
 * The note-sharing function (amplify/backend/function/shareNoteViaEmail/src/index.js):
 * look the note up by id, let only its owner share it, build a plain-text
 * email and send it once. The record store is a map read by key; the store
 * lookup and the email send are inputs that succeed or throw.
 */
module ShareNote {
  import opened Options

  /** A note record as the record store holds it; `owner` may be missing (undefined). */
  datatype Item = Item(id: string, owner: Option<string>, title: string, content: string)

  /** The record store's note table, keyed by id. */
  type Store = map<string, Item>

  /** `event.identity` when it is not null; `username` may be missing (undefined). */
  datatype Identity = Identity(username: Option<string>)

  /** The email handed to the email service (the sender address is configuration, not modelled). */
  datatype Email = Email(toAddresses: seq<string>, subject: string, body: string)

  /** The three outcome classes of the handler. */
  datatype Outcome = Shared | Denied | Failed

  /** The handler's reply text, and the emails it asked the email service to send. */
  datatype Response = Response(reply: string, attempts: seq<Email>)

  const Subject := "Shared Note from NotepadGo"

  /** The reply text of each outcome. */
  function Reply(o: Outcome): string {
    match o
    case Shared => "Note shared successfully via email!"
    case Denied => "Note not found or you don't have permission to share it."
    case Failed => "An error occurred while sharing the note."
  }

  /** The reply text determines the outcome. */
  lemma ReplyInjective(a: Outcome, b: Outcome)
    ensures Reply(a) == Reply(b) ==> a == b
  {
  }

  /** The plain-text body: the title and the content under two labels. */
  function Body(title: string, content: string): string {
    "Title: " + title + "\n\nContent: " + content
  }

  /** The email for a note, addressed to the one recipient. */
  function ShareEmail(item: Item, recipient: string): Email {
    Email([recipient], Subject, Body(item.title, item.content))
  }

  /** The owner check, the sole authorization boundary: `Item.owner === identity.username`. */
  predicate IsOwner(item: Item, identity: Identity) {
    item.owner == identity.username
  }

  /**
   * exports.handler. `lookupOk` is false when the store's get throws, `identity`
   * is None when `event.identity` is null (reading its username then throws),
   * and `sendOk` is false when sendEmail throws.
   */
  function Handle(store: Store, lookupOk: bool, noteId: string, identity: Option<Identity>,
                  recipient: string, sendOk: bool): (r: Response)
    ensures r.reply == Reply(Shared) || r.reply == Reply(Denied) || r.reply == Reply(Failed)
    ensures r.reply == Reply(Denied) <==> lookupOk && (noteId !in store || (identity.Some? && !IsOwner(store[noteId], identity.value)))
    ensures r.reply == Reply(Shared) <==>
              lookupOk && noteId in store && identity.Some? && IsOwner(store[noteId], identity.value) && sendOk
    ensures r.attempts != [] <==> lookupOk && noteId in store && identity.Some? && IsOwner(store[noteId], identity.value)
    ensures r.attempts != [] ==> r.attempts == [ShareEmail(store[noteId], recipient)]
    ensures r.attempts != [] ==> r.attempts[0].toAddresses == [recipient] && r.attempts[0].subject == Subject
  {
    if !lookupOk then Response(Reply(Failed), [])
    else if noteId !in store then Response(Reply(Denied), [])
    else if identity.None? then Response(Reply(Failed), [])
    else if !IsOwner(store[noteId], identity.value) then Response(Reply(Denied), [])
    else
      var email := ShareEmail(store[noteId], recipient);
      Response(if sendOk then Reply(Shared) else Reply(Failed), [email])
  }

  /** A missing note and a note owned by someone else give the very same response. */
  lemma NotFoundLooksLikeNotOwner(store: Store, other: Store, noteId: string, identity: Identity,
                                  recipient: string, sendOk: bool)
    requires noteId !in store
    requires noteId in other && !IsOwner(other[noteId], identity)
    ensures Handle(store, true, noteId, Some(identity), recipient, sendOk)
         == Handle(other, true, noteId, Some(identity), recipient, sendOk)
         == Response(Reply(Denied), [])
  {
  }

  /** The lookup reads the store at `noteId` only: stores that agree there give the same response. */
  lemma LookupByIdOnly(store: Store, other: Store, lookupOk: bool, noteId: string, identity: Option<Identity>,
                       recipient: string, sendOk: bool)
    requires (noteId in store) == (noteId in other)
    requires noteId in store ==> store[noteId] == other[noteId]
    ensures Handle(store, lookupOk, noteId, identity, recipient, sendOk)
         == Handle(other, lookupOk, noteId, identity, recipient, sendOk)
  {
  }

  /** The first `sep` in `s`: the text before it and the text after it. */
  function SplitFirst(s: string, sep: string): (r: Option<(string, string)>)
    requires |sep| > 0
    ensures r.Some? ==> s == r.value.0 + sep + r.value.1
    decreases |s|
  {
    if |s| < |sep| then None
    else if s[..|sep|] == sep then Some(([], s[|sep|..]))
    else match SplitFirst(s[1..], sep)
      case None => None
      case Some((before, after)) =>
        assert s == [s[0]] + s[1..];
        Some(([s[0]] + before, after))
  }

  /** Reads a title and a content back out of a body. */
  function ParseBody(body: string): Option<(string, string)> {
    if |body| >= 7 && body[..7] == "Title: " then SplitFirst(body[7..], "\n\nContent: ")
    else None
  }

  /** A single-line title and any content are recovered verbatim from the email body. */
  lemma BodyRoundTrip(title: string, content: string)
    requires '\n' !in title
    ensures ParseBody(Body(title, content)) == Some((title, content))
  {
    var body := Body(title, content);
    assert body[..7] == "Title: ";
    assert body[7..] == title + "\n\nContent: " + content;
    SplitFirstPastPrefix(title, content, "\n\nContent: ");
  }

  /** When the text before the separator cannot start it, the first split falls right after that text. */
  lemma {:induction false} SplitFirstPastPrefix(before: string, after: string, sep: string)
    requires |sep| > 0 && sep[0] !in before
    ensures SplitFirst(before + sep + after, sep) == Some((before, after))
    decreases |before|
  {
    var s := before + sep + after;
    if before == [] {
      assert s == sep + after;
      assert s[..|sep|] == sep;
    } else {
      assert s[0] == before[0] != sep[0];
      assert s[..|sep|] != sep;
      assert s[1..] == before[1..] + sep + after;
      SplitFirstPastPrefix(before[1..], after, sep);
      assert [before[0]] + before[1..] == before;
    }
  }

  /** A title that holds the content label makes the format ambiguous: two different notes give one body. */
  lemma BodyAmbiguousWhenTitleHoldsLabel()
    ensures Body("a\n\nContent: b", "c") == Body("a", "b\n\nContent: c")
  {
  }
}
