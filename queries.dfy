/**
 The three read projections of the chat service, each over one snapshot of a collection in
 the store's document order: the comments of a post, the whole chat ordered by creation
 time, and the messages of one author handle.
 */
module Queries {
  import opened ChatTypes

  /** The comments of `snapshot` that belong to post `id`, in snapshot order. */
  function CommentsOf(snapshot: seq<Comment>, id: MessageId): (r: seq<Comment>)
    ensures forall c :: c in r <==> c in snapshot && c.post == id
    ensures |r| <= |snapshot|
  {
    if snapshot == [] then []
    else
      var last := snapshot[|snapshot| - 1];
      CommentsOf(snapshot[..|snapshot| - 1], id) + (if last.post == id then [last] else [])
  }

  /** `getComentariosDelPost`: the list one snapshot of the `post == id` query delivers, built
      by pushing each matching document in turn. */
  method GetComentariosDelPost(snapshot: seq<Comment>, id: MessageId) returns (comentarios: seq<Comment>)
    ensures comentarios == CommentsOf(snapshot, id)
    ensures forall c :: c in comentarios <==> c in snapshot && c.post == id
  {
    comentarios := [];
    var i := 0;
    while i < |snapshot|
      invariant 0 <= i <= |snapshot|
      invariant comentarios == CommentsOf(snapshot[..i], id)
    {
      assert snapshot[..i + 1][..i] == snapshot[..i];
      if snapshot[i].post == id {
        comentarios := comentarios + [snapshot[i]];
      }
      i := i + 1;
    }
    assert snapshot[..i] == snapshot;
  }

  /** The comment query splits over a concatenation of snapshots, so it keeps every matching
      comment in its place relative to the others. */
  lemma {:induction false} CommentsOfAppend(a: seq<Comment>, b: seq<Comment>, id: MessageId)
    ensures CommentsOf(a + b, id) == CommentsOf(a, id) + CommentsOf(b, id)
  {
    if b == [] {
      assert a + b == a;
    } else {
      var b' := b[..|b| - 1];
      assert (a + b)[..|a + b| - 1] == a + b';
      CommentsOfAppend(a, b', id);
    }
  }

  /** A comment appended to the end of the collection is added after the earlier matches of
      its own post's query and to no other post's query. */
  lemma CommentsOfSnoc(snapshot: seq<Comment>, c: Comment, id: MessageId)
    ensures CommentsOf(snapshot + [c], id) == CommentsOf(snapshot, id) + (if c.post == id then [c] else [])
  {
    assert (snapshot + [c])[..|snapshot|] == snapshot;
  }

  predicate SortedByCreation(s: seq<ChatDoc>) {
    forall i, j :: 0 <= i < j < |s| ==> s[i].data.createdAt <= s[j].data.createdAt
  }

  /** Nothing in `s` was created after time `t`. */
  predicate NoLaterThan(s: seq<ChatDoc>, t: int) {
    forall i :: 0 <= i < |s| ==> s[i].data.createdAt <= t
  }

  /** Places `d` after every entry of `s` created no later than it. */
  function InsertByCreation(s: seq<ChatDoc>, d: ChatDoc): seq<ChatDoc> {
    if s == [] || s[|s| - 1].data.createdAt <= d.data.createdAt then
      s + [d]
    else
      InsertByCreation(s[..|s| - 1], d) + [s[|s| - 1]]
  }

  /** Insertion adds `d` and loses nothing. */
  lemma {:induction false} InsertByCreationPermutes(s: seq<ChatDoc>, d: ChatDoc)
    ensures multiset(InsertByCreation(s, d)) == multiset(s) + multiset{d}
  {
    if !(s == [] || s[|s| - 1].data.createdAt <= d.data.createdAt) {
      var init, last := s[..|s| - 1], s[|s| - 1];
      assert s == init + [last];
      InsertByCreationPermutes(init, d);
    }
  }

  /** Insertion brings in nothing created later than what went in. */
  lemma {:induction false} InsertByCreationBounded(s: seq<ChatDoc>, d: ChatDoc, t: int)
    requires NoLaterThan(s, t) && d.data.createdAt <= t
    ensures NoLaterThan(InsertByCreation(s, d), t)
  {
    if !(s == [] || s[|s| - 1].data.createdAt <= d.data.createdAt) {
      InsertByCreationBounded(s[..|s| - 1], d, t);
    }
  }

  /** Insertion into a list in creation order keeps it in creation order. */
  lemma {:induction false} InsertByCreationSorted(s: seq<ChatDoc>, d: ChatDoc)
    requires SortedByCreation(s)
    ensures SortedByCreation(InsertByCreation(s, d))
  {
    if !(s == [] || s[|s| - 1].data.createdAt <= d.data.createdAt) {
      var init, last := s[..|s| - 1], s[|s| - 1];
      assert NoLaterThan(init, last.data.createdAt);
      InsertByCreationSorted(init, d);
      InsertByCreationBounded(init, d, last.data.createdAt);
    }
  }

  /** `cambiosEnElChat`: one snapshot of the `orderBy("created_at")` query, a stable
      reordering of the chat collection by creation time. */
  function ChatStream(docs: seq<ChatDoc>): (r: seq<ChatDoc>)
    ensures SortedByCreation(r)
    ensures multiset(r) == multiset(docs)
    ensures forall t :: NoLaterThan(docs, t) ==> NoLaterThan(r, t)
  {
    if docs == [] then []
    else
      var init, last := docs[..|docs| - 1], docs[|docs| - 1];
      assert docs == init + [last];
      var sorted := ChatStream(init);
      InsertByCreationSorted(sorted, last);
      InsertByCreationPermutes(sorted, last);
      assert forall t :: NoLaterThan(docs, t) ==> NoLaterThan(init, t) && last.data.createdAt <= t;
      assert forall t :: NoLaterThan(docs, t) ==> NoLaterThan(InsertByCreation(sorted, last), t) by {
        forall t | NoLaterThan(docs, t) ensures NoLaterThan(InsertByCreation(sorted, last), t) {
          InsertByCreationBounded(sorted, last, t);
        }
      }
      InsertByCreation(sorted, last)
  }

  /** A message created no earlier than everything in the chat comes last in the next stream,
      with the rest of the stream unchanged. */
  lemma ChatStreamAppendLatest(docs: seq<ChatDoc>, d: ChatDoc)
    requires NoLaterThan(docs, d.data.createdAt)
    ensures ChatStream(docs + [d]) == ChatStream(docs) + [d]
  {
    assert (docs + [d])[..|docs|] == docs;
    assert NoLaterThan(ChatStream(docs), d.data.createdAt);
  }

  /** A chat already in creation order is delivered as it is; in particular the stream of a
      stream is the stream itself. */
  lemma {:induction false} ChatStreamOfSorted(docs: seq<ChatDoc>)
    requires SortedByCreation(docs)
    ensures ChatStream(docs) == docs
  {
    if docs != [] {
      var init := docs[..|docs| - 1];
      assert SortedByCreation(init);
      ChatStreamOfSorted(init);
      ChatStreamAppendLatest(init, docs[|docs| - 1]);
      assert init + [docs[|docs| - 1]] == docs;
    }
  }

  lemma ChatStreamIdempotent(docs: seq<ChatDoc>)
    ensures ChatStream(ChatStream(docs)) == ChatStream(docs)
  {
    ChatStreamOfSorted(ChatStream(docs));
  }

  /** `obtenerPostsDeUsuarioById`: one snapshot of the `usertag == tag` query, in snapshot order. */
  function PostsOfUser(docs: seq<ChatDoc>, tag: string): (r: seq<ChatDoc>)
    ensures forall d :: d in r <==> d in docs && HasUsertag(d.data, tag)
    ensures |r| <= |docs|
  {
    if docs == [] then []
    else
      var last := docs[|docs| - 1];
      PostsOfUser(docs[..|docs| - 1], tag) + (if HasUsertag(last.data, tag) then [last] else [])
  }

  /** The user query splits over a concatenation of snapshots, keeping the matches in order. */
  lemma {:induction false} PostsOfUserAppend(a: seq<ChatDoc>, b: seq<ChatDoc>, tag: string)
    ensures PostsOfUser(a + b, tag) == PostsOfUser(a, tag) + PostsOfUser(b, tag)
  {
    if b == [] {
      assert a + b == a;
    } else {
      var b' := b[..|b| - 1];
      assert (a + b)[..|a + b| - 1] == a + b';
      PostsOfUserAppend(a, b', tag);
    }
  }

  /** The chat queries deliver each document as `{ id: doc.id, ...doc.data() }`; the stored
      fields are spread after the id, so a caller field named "id" replaces the document id. */
  function ProjectAsWritten(docId: MessageId, m: Message): (d: ChatDoc)
    ensures d.data == m
    ensures d.id == docId <==> "id" !in m.fields || m.fields["id"] == docId
  {
    ChatDoc(if "id" in m.fields then m.fields["id"] else docId, m)
  }

  /** A message whose caller fields carry "id" is delivered under that id and not under its own. */
  lemma ProjectionHidesDocumentId()
    ensures exists m: Message :: ProjectAsWritten("doc-1", m).id == "other"
  {
    var m := Message(map["id" := "other"], 0, 0, Some([]), 0, []);
    assert ProjectAsWritten("doc-1", m).id == "other";
  }
}
