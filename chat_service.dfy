/**
 The chat service over an in-memory document store: the `chat` collection as a map from
 message id to message plus the collection's document order, and the `comentario`
 collection as a sequence in document order. Store-assigned ids and server timestamps are
 parameters of the creating operations; each store write that can fail has a flag saying
 whether it does.
 */
module ChatService {
  import opened ChatTypes
  import opened Likes
  import opened Queries

  /** The document `enviarMensajeAfirebase` writes: the caller's fields, with the service's own
      bookkeeping fields set after them. */
  function NewMessage(draft: Fields, now: int): (m: Message)
    ensures forall k :: k in m.fields <==> k in draft && k !in Reserved
    ensures forall k :: k in m.fields ==> m.fields[k] == draft[k]
    ensures m.createdAt == now
    ensures LikesConsistent(m) && Likers(m) == [] && m.likesBy.Some?
    ensures m.comentarios == 0 && m.comentariosText == []
  {
    Message(draft - Reserved, now, 0, Some([]), 0, [])
  }

  /** No two comments share an id. */
  ghost predicate DistinctIds(comments: seq<Comment>) {
    forall i, j :: 0 <= i < j < |comments| ==> comments[i].id != comments[j].id
  }

  lemma AppendFreshComment(comments: seq<Comment>, c: Comment)
    requires DistinctIds(comments)
    requires forall i :: 0 <= i < |comments| ==> comments[i].id != c.id
    ensures DistinctIds(comments + [c])
  {
  }

  /** Every message's like counter agrees with its liker list. */
  ghost predicate ChatLikesConsistent(chat: map<MessageId, Message>) {
    forall id :: id in chat ==> LikesConsistent(chat[id])
  }

  /** Every message's comment counter equals the number of its comments in `comments`. */
  ghost predicate CountsInSync(chat: map<MessageId, Message>, comments: seq<Comment>) {
    forall id :: id in chat ==> chat[id].comentarios == |CommentsOf(comments, id)|
  }

  /** The message `id` with its comment counter raised by one, as `increment(1)` writes it. */
  function CountComment(m: Message): Message {
    m.(comentarios := m.comentarios + 1)
  }

  lemma CountCommentKeepsLikes(chat: map<MessageId, Message>, id: MessageId)
    requires id in chat
    ensures ChatLikesConsistent(chat) ==> ChatLikesConsistent(chat[id := CountComment(chat[id])])
  {
    assert Likers(CountComment(chat[id])) == Likers(chat[id]);
  }

  /** A like toggle on a stored message keeps every message's counter consistent and leaves
      every comment counter as it was. */
  lemma ToggleKeepsChatInvariants(chat: map<MessageId, Message>, comments: seq<Comment>, id: MessageId, u: UserId)
    requires id in chat
    ensures ChatLikesConsistent(chat) ==> ChatLikesConsistent(chat[id := Toggle(chat[id], u)])
    ensures CountsInSync(chat, comments) ==> CountsInSync(chat[id := Toggle(chat[id], u)], comments)
  {
    if ChatLikesConsistent(chat) {
      ToggleKeepsConsistent(chat[id], u);
    }
  }

  /** A comment whose parent's counter is raised keeps all counters in sync; a comment on a
      missing post keeps them in sync without any counter moving. */
  lemma {:induction false} CommentKeepsSync(chat: map<MessageId, Message>, comments: seq<Comment>, c: Comment)
    requires CountsInSync(chat, comments)
    ensures c.post in chat ==> CountsInSync(chat[c.post := CountComment(chat[c.post])], comments + [c])
    ensures c.post !in chat ==> CountsInSync(chat, comments + [c])
  {
    if c.post in chat {
      var counted := chat[c.post := CountComment(chat[c.post])];
      forall k | k in counted ensures counted[k].comentarios == |CommentsOf(comments + [c], k)| {
        CommentsOfSnoc(comments, c, k);
      }
    } else {
      forall k | k in chat ensures chat[k].comentarios == |CommentsOf(comments + [c], k)| {
        CommentsOfSnoc(comments, c, k);
      }
    }
  }

  /** When the counter update after a stored comment fails, the parent's counter falls one
      short of its comments. */
  lemma CommentUnderCount(chat: map<MessageId, Message>, comments: seq<Comment>, c: Comment)
    requires CountsInSync(chat, comments) && c.post in chat
    ensures chat[c.post].comentarios == |CommentsOf(comments + [c], c.post)| - 1
  {
    CommentsOfSnoc(comments, c, c.post);
  }

  /** A message created under an id that comments were already posted to starts with a
      counter of 0 and so falls out of sync with those comments. */
  lemma OrphanCommentsBreakSync(chat: map<MessageId, Message>, comments: seq<Comment>,
                                id: MessageId, draft: Fields, now: int)
    requires id !in chat && CommentsOf(comments, id) != []
    ensures !CountsInSync(chat[id := NewMessage(draft, now)], comments)
  {
    assert chat[id := NewMessage(draft, now)][id].comentarios == 0;
  }

  class Store {
    var chat: map<MessageId, Message>
    var order: seq<MessageId>
    var comments: seq<Comment>

    /** The document order lists every message exactly once; comment ids are unique. */
    ghost predicate Valid()
      reads this
    {
      && NoDup(order)
      && (forall id :: id in chat <==> id in order)
      && DistinctIds(comments)
    }

    ghost predicate AllLikesConsistent()
      reads this
    {
      ChatLikesConsistent(chat)
    }

    ghost predicate CommentCountsInSync()
      reads this
    {
      CountsInSync(chat, comments)
    }

    constructor ()
      ensures Valid() && AllLikesConsistent() && CommentCountsInSync()
      ensures chat == map[] && order == [] && comments == []
    {
      chat, order, comments := map[], [], [];
    }

    /** One snapshot of the chat collection in document order, each message delivered under
        the id of the document that holds it. */
    function ChatSnapshot(): (s: seq<ChatDoc>)
      reads this
      requires Valid()
      ensures |s| == |order|
      ensures forall i :: 0 <= i < |s| ==> s[i].id == order[i] && s[i].id in chat && s[i].data == chat[s[i].id]
    {
      var c, o := chat, order;
      seq(|o|, i requires 0 <= i < |o| => ChatDoc(o[i], c[o[i]]))
    }

    /** Every entry of the ordered chat stream names a stored message and carries its data, so
        a like or a comment sent to that id reaches that message. */
    lemma StreamAddressesStore()
      requires Valid()
      ensures forall d :: d in ChatStream(ChatSnapshot()) ==> d.id in chat && chat[d.id] == d.data
    {
      var s := ChatSnapshot();
      forall d | d in ChatStream(s) ensures d.id in chat && chat[d.id] == d.data {
        assert d in multiset(ChatStream(s));
        assert d in multiset(s);
        assert d in s;
      }
    }

    /** `enviarMensajeAfirebase`: adds exactly one message, under the fresh id the store assigns.
        When the store rejects the write the promise rejects and nothing changes. */
    method CreateMessage(id: MessageId, draft: Fields, now: int, createFails: bool) returns (outcome: Outcome)
      requires Valid()
      requires id !in chat
      modifies this
      ensures Valid()
      ensures comments == old(comments)
      ensures createFails ==> outcome == Rejected && chat == old(chat) && order == old(order)
      ensures !createFails ==> outcome == Resolved
      ensures !createFails ==> chat == old(chat)[id := NewMessage(draft, now)] && order == old(order) + [id]
      ensures !createFails ==> |chat| == |old(chat)| + 1
      ensures !createFails ==> ChatSnapshot() == old(ChatSnapshot()) + [ChatDoc(id, NewMessage(draft, now))]
      ensures old(AllLikesConsistent()) ==> AllLikesConsistent()
      ensures old(CommentCountsInSync()) && CommentsOf(comments, id) == [] ==> CommentCountsInSync()
    {
      if createFails {
        outcome := Rejected;
        return;
      }
      ghost var before := ChatSnapshot();
      assert id !in order;
      var m := NewMessage(draft, now);
      chat := chat[id := m];
      order := order + [id];
      outcome := Resolved;
      assert NoDup(order) by {
        forall i, j | 0 <= i < j < |order| ensures order[i] != order[j] {
          if j == |order| - 1 {
            assert order[i] == old(order)[i];
          } else {
            assert order[i] == old(order)[i] && order[j] == old(order)[j];
          }
        }
      }
      assert |chat| == |old(chat)| + 1 by {
        assert chat.Keys == old(chat).Keys + {id};
      }
      SnapshotAfterCreate(before, id, m);
      if old(AllLikesConsistent()) {
        forall k | k in chat ensures LikesConsistent(chat[k]) {
          if k != id {
            assert chat[k] == old(chat)[k];
          }
        }
      }
      if old(CommentCountsInSync()) && CommentsOf(comments, id) == [] {
        forall k | k in chat ensures chat[k].comentarios == |CommentsOf(comments, k)| {
          if k != id {
            assert chat[k] == old(chat)[k];
          }
        }
      }
    }

    lemma SnapshotAfterCreate(before: seq<ChatDoc>, id: MessageId, m: Message)
      requires Valid()
      requires |order| > 0 && id == order[|order| - 1] && chat[id] == m
      requires |before| == |order| - 1
      requires forall i :: 0 <= i < |before| ==> before[i].id == order[i] && before[i].data == chat[order[i]]
      ensures ChatSnapshot() == before + [ChatDoc(id, m)]
    {
      var s := ChatSnapshot();
      assert |s| == |before + [ChatDoc(id, m)]|;
      forall i | 0 <= i < |s| ensures s[i] == (before + [ChatDoc(id, m)])[i] {
        if i < |before| {
          assert s[i].id == order[i];
        }
      }
    }

    /** `darLike`: toggles the like of user `u` on message `id`. A missing message is only
        logged. A failed write of a like is caught and logged; a failed write of an unlike
        rejects the call. Either way a failed write changes nothing. */
    method DarLike(id: MessageId, u: UserId, updateFails: bool) returns (outcome: Outcome)
      requires Valid()
      modifies this
      ensures Valid()
      ensures order == old(order) && comments == old(comments)
      ensures id !in old(chat) ==> chat == old(chat) && outcome == Resolved
      ensures id in old(chat) && updateFails ==> chat == old(chat)
      ensures id in old(chat) && updateFails ==> (outcome == Rejected <==> HasLiked(old(chat)[id], u))
      ensures id in old(chat) && !updateFails ==> outcome == Resolved
      ensures id in old(chat) && !updateFails ==> chat == old(chat)[id := Toggle(old(chat)[id], u)]
      ensures id in old(chat) && !updateFails && !HasLiked(old(chat)[id], u) ==>
                chat[id].likes == old(chat)[id].likes + 1 && chat[id].likesBy == Some(Likers(old(chat)[id]) + [u])
      ensures id in old(chat) && !updateFails && HasLiked(old(chat)[id], u) ==>
                chat[id].likes == old(chat)[id].likes - 1 && chat[id].likesBy == Some(Without(Likers(old(chat)[id]), u))
      ensures old(AllLikesConsistent()) ==> AllLikesConsistent()
      ensures old(CommentCountsInSync()) ==> CommentCountsInSync()
    {
      if id in chat {
        var post := chat[id];
        ToggleKeepsChatInvariants(chat, comments, id, u);
        if post.likesBy.None? || u !in post.likesBy.value {
          if !updateFails {
            var likers := if post.likesBy.Some? then post.likesBy.value else [];
            chat := chat[id := post.(likes := post.likes + 1, likesBy := Some(likers + [u]))];
          }
          outcome := Resolved;
        } else {
          if updateFails {
            outcome := Rejected;
          } else {
            chat := chat[id := post.(likes := post.likes - 1, likesBy := Some(Without(post.likesBy.value, u)))];
            outcome := Resolved;
          }
        }
      } else {
        outcome := Resolved;
      }
    }

    /** `enviarComentarioAlPost`: stores the comment under the fresh id the store assigns,
        whether or not post `id` exists, and then bumps the parent's comment counter when the
        parent exists. A rejected comment write rejects the call before anything changes; a
        failed counter update is caught and logged, leaving the comment in place. */
    method PostComment(cid: CommentId, comentario: string, usertag: string, username: string,
                       id: MessageId, now: int, createFails: bool, updateFails: bool)
      returns (outcome: Outcome)
      requires Valid()
      requires forall i :: 0 <= i < |comments| ==> comments[i].id != cid
      modifies this
      ensures Valid()
      ensures order == old(order)
      ensures createFails ==> outcome == Rejected && chat == old(chat) && comments == old(comments)
      ensures !createFails ==> outcome == Resolved
      ensures !createFails ==> comments == old(comments) + [Comment(cid, id, comentario, usertag, username, now)]
      ensures !createFails && id in old(chat) && !updateFails ==>
                chat == old(chat)[id := CountComment(old(chat)[id])]
      ensures !createFails && (id !in old(chat) || updateFails) ==> chat == old(chat)
      ensures old(AllLikesConsistent()) ==> AllLikesConsistent()
      ensures old(CommentCountsInSync()) && !updateFails ==> CommentCountsInSync()
    {
      if createFails {
        outcome := Rejected;
        return;
      }
      var c := Comment(cid, id, comentario, usertag, username, now);
      AppendFreshComment(comments, c);
      if CountsInSync(chat, comments) {
        CommentKeepsSync(chat, comments, c);
      }
      if id in chat {
        CountCommentKeepsLikes(chat, id);
      }
      comments := comments + [c];
      if id in chat {
        var post := chat[id];
        if !updateFails {
          chat := chat[id := CountComment(post)];
        }
      }
      outcome := Resolved;
    }
  }
}
