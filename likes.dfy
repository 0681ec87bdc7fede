/**
 The like toggle of a chat message (`darLike`), as a pure transition on one message record,
 with the counter invariant it keeps.
 */
module Likes {
  import opened ChatTypes

  /** The liker list as the toggle reads it: a missing `likesBy` counts as empty. */
  function Likers(m: Message): seq<UserId> {
    m.likesBy.GetOr([])
  }

  /** The toggle's branch condition: `likesBy` is present and contains `u`. */
  predicate HasLiked(m: Message, u: UserId) {
    m.likesBy.Some? && u in m.likesBy.value
  }

  /** `s.filter(uid => uid !== u)`: every occurrence of `u` dropped, the rest kept in order. */
  function Without(s: seq<UserId>, u: UserId): (r: seq<UserId>)
    ensures forall x :: x in r <==> x in s && x != u
    ensures |r| <= |s|
  {
    if s == [] then [] else (if s[0] == u then [] else [s[0]]) + Without(s[1..], u)
  }

  /** The new state of a message after one like toggle by `u`: a like by a user who has not
      liked it, otherwise the withdrawal of that user's like. */
  function Toggle(m: Message, u: UserId): (r: Message)
    ensures r == m.(likes := r.likes, likesBy := r.likesBy)
    ensures r.likesBy.Some?
    ensures HasLiked(r, u) <==> !HasLiked(m, u)
  {
    if !HasLiked(m, u) then
      m.(likes := m.likes + 1, likesBy := Some(Likers(m) + [u]))
    else
      m.(likes := m.likes - 1, likesBy := Some(Without(m.likesBy.value, u)))
  }

  /** The invariant of a message: the counter equals the number of likers, and no user
      is listed twice. */
  predicate LikesConsistent(m: Message) {
    NoDup(Likers(m)) && m.likes == |Likers(m)|
  }

  lemma {:induction false} WithoutAbsent(s: seq<UserId>, u: UserId)
    requires u !in s
    ensures Without(s, u) == s
  {
    if s != [] {
      WithoutAbsent(s[1..], u);
      assert s == [s[0]] + s[1..];
    }
  }

  /** Filtering distributes over concatenation: the kept entries stay in their order. */
  lemma {:induction false} WithoutAppend(a: seq<UserId>, b: seq<UserId>, u: UserId)
    ensures Without(a + b, u) == Without(a, u) + Without(b, u)
  {
    if a == [] {
      assert a + b == b;
    } else {
      assert (a + b)[1..] == a[1..] + b;
      WithoutAppend(a[1..], b, u);
    }
  }

  lemma NoDupAppend(s: seq<UserId>, u: UserId)
    requires NoDup(s) && u !in s
    ensures NoDup(s + [u])
  {
  }

  /** Removing a user who is listed exactly once shortens a duplicate-free list by one and
      keeps it duplicate-free. */
  lemma {:induction false} WithoutUnique(s: seq<UserId>, u: UserId)
    requires NoDup(s) && u in s
    ensures |Without(s, u)| == |s| - 1
    ensures NoDup(Without(s, u))
  {
    var t := s[1..];
    assert NoDup(t) by {
      forall i, j | 0 <= i < j < |t| ensures t[i] != t[j] {
        assert t[i] == s[i + 1] && t[j] == s[j + 1];
      }
    }
    assert s[0] !in t by {
      forall k | 0 <= k < |t| ensures t[k] != s[0] {
        assert t[k] == s[k + 1];
      }
    }
    if s[0] == u {
      WithoutAbsent(t, u);
      assert Without(s, u) == t;
    } else {
      assert u in t;
      WithoutUnique(t, u);
      var w := Without(t, u);
      assert Without(s, u) == [s[0]] + w;
      assert s[0] !in w;
      forall i, j | 0 <= i < j < |[s[0]] + w| ensures ([s[0]] + w)[i] != ([s[0]] + w)[j] {
        if i == 0 {
          assert ([s[0]] + w)[j] == w[j - 1];
        } else {
          assert ([s[0]] + w)[i] == w[i - 1] && ([s[0]] + w)[j] == w[j - 1];
        }
      }
    }
  }

  /** A toggle keeps the counter invariant, so a consistent counter never goes negative. */
  lemma {:induction false} ToggleKeepsConsistent(m: Message, u: UserId)
    requires LikesConsistent(m)
    ensures LikesConsistent(Toggle(m, u))
    ensures Toggle(m, u).likes >= 0
  {
    var r := Toggle(m, u);
    if !HasLiked(m, u) {
      assert u !in Likers(m);
      NoDupAppend(Likers(m), u);
      assert Likers(r) == Likers(m) + [u];
    } else {
      WithoutUnique(Likers(m), u);
      assert Likers(r) == Without(Likers(m), u);
    }
  }

  /** Two toggles by the same user undo each other: the counter and the set of likers come
      back, the liker list itself comes back when the user had not liked the message, and no
      other field moves. */
  lemma {:induction false} ToggleTwice(m: Message, u: UserId)
    ensures Toggle(Toggle(m, u), u).likes == m.likes
    ensures forall x :: x in Likers(Toggle(Toggle(m, u), u)) <==> x in Likers(m)
    ensures !HasLiked(m, u) ==> Likers(Toggle(Toggle(m, u), u)) == Likers(m)
    ensures Toggle(Toggle(m, u), u).(likes := m.likes, likesBy := m.likesBy) == m
  {
    var m1 := Toggle(m, u);
    var m2 := Toggle(m1, u);
    if !HasLiked(m, u) {
      assert u !in Likers(m);
      assert HasLiked(m1, u);
      assert Likers(m2) == Without(Likers(m) + [u], u);
      WithoutAppend(Likers(m), [u], u);
      WithoutAbsent(Likers(m), u);
      assert Without([u], u) == [];
      assert Likers(m2) == Likers(m);
    } else {
      assert !HasLiked(m1, u);
      assert Likers(m2) == Without(Likers(m), u) + [u];
    }
  }

  /** Three toggles from a fresh message: u1 likes, u2 likes, then u1 withdraws the like. */
  lemma ToggleScenario(m: Message)
    requires m.likes == 0 && m.likesBy == Some([])
    ensures Toggle(m, "u1").likes == 1 && Likers(Toggle(m, "u1")) == ["u1"]
    ensures Toggle(Toggle(m, "u1"), "u2").likes == 2
    ensures Likers(Toggle(Toggle(m, "u1"), "u2")) == ["u1", "u2"]
    ensures Toggle(Toggle(Toggle(m, "u1"), "u2"), "u1").likes == 1
    ensures Likers(Toggle(Toggle(Toggle(m, "u1"), "u2"), "u1")) == ["u2"]
  {
    var m1 := Toggle(m, "u1");
    assert Likers(m1) == [] + ["u1"];
    var m2 := Toggle(m1, "u2");
    assert "u2" != "u1";
    assert !HasLiked(m1, "u2");
    assert Likers(m2) == ["u1"] + ["u2"];
    assert HasLiked(m2, "u1");
    var w := Without(["u1", "u2"], "u1");
    assert ["u1", "u2"][1..] == ["u2"];
    assert Without(["u2"], "u1") == ["u2"];
    assert w == ["u2"];
  }
}
