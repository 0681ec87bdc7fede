/**
 The records kept by the chat service in its two collections: `chat` (messages) and
 `comentario` (comments), and the small value types they are built from.
 */
module ChatTypes {

  type MessageId = string
  type CommentId = string
  type UserId = string

  /** The fields a caller puts into a new message (author handle under "usertag", display
      name, body, ...), by field name. Their values are opaque to the service. */
  type Fields = map<string, string>

  datatype Option<T> = None | Some(value: T) {
    function GetOr(default: T): T {
      match this
      case Some(v) => v
      case None => default
    }
  }

  /** How an asynchronous call of the service ends: it resolves, or its promise rejects with
      the store's write error. */
  datatype Outcome = Resolved | Rejected

  /** A document of the `chat` collection. `likesBy` is optional because a stored document may
      lack the field; the service then reads it as an empty list. */
  datatype Message = Message(
    fields: Fields,
    createdAt: int,
    likes: int,
    likesBy: Option<seq<UserId>>,
    comentarios: int,
    comentariosText: seq<string>)

  /** A document of the `comentario` collection; `post` is the id of the parent message. */
  datatype Comment = Comment(
    id: CommentId,
    post: MessageId,
    comentario: string,
    usertag: string,
    username: string,
    createdAt: int)

  /** One entry of a chat query result: a message together with the id it is delivered under. */
  datatype ChatDoc = ChatDoc(id: MessageId, data: Message)

  /** The field names that message creation sets itself, overriding any caller field of the same name. */
  const Reserved: set<string> := {"created_at", "likes", "likesBy", "comentarios", "comentarios_text"}

  predicate NoDup<T(==)>(s: seq<T>) {
    forall i, j :: 0 <= i < j < |s| ==> s[i] != s[j]
  }

  /** The author handle a message carries, if its caller fields have one. */
  predicate HasUsertag(m: Message, tag: string) {
    "usertag" in m.fields && m.fields["usertag"] == tag
  }
}
