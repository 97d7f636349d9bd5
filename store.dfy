/** The message store of the inbox demo (src/store.js): a mutable list of
    messages and two counters derived from it. */
module Store {
  import opened Utils

  /** `messages.filter(message => message.read === false)`: the unread
      records, in their original order. */
  function Unread(s: seq<Message>): (r: seq<Message>)
    ensures |r| <= |s|
    ensures forall m :: m in r ==> m in s && !m.read
    ensures forall m :: m in s && !m.read ==> m in r
  {
    if s == [] then []
    else if !s[0].read then [s[0]] + Unread(s[1..])
    else Unread(s[1..])
  }

  /** The positions of the unread records: an independent description of
      what the unread counter counts. */
  ghost function UnreadPositions(s: seq<Message>): set<nat> {
    set k: nat | k < |s| && !s[k].read
  }

  /** Filtering distributes over appending one record at the end. */
  lemma {:induction false} UnreadSnoc(s: seq<Message>, m: Message)
    ensures Unread(s + [m]) == Unread(s) + (if m.read then [] else [m])
  {
    if s != [] {
      assert (s + [m])[1..] == s[1..] + [m];
      UnreadSnoc(s[1..], m);
    }
  }

  /** The unread counter equals the number of positions holding an unread
      record. */
  lemma {:induction false} UnreadCountIsPositions(s: seq<Message>)
    ensures |Unread(s)| == |UnreadPositions(s)|
    decreases |s|
  {
    if s != [] {
      var init, last := s[..|s| - 1], s[|s| - 1];
      assert s == init + [last];
      UnreadSnoc(init, last);
      UnreadCountIsPositions(init);
      var extra: set<nat> := if last.read then {} else {|s| - 1};
      assert UnreadPositions(s) == UnreadPositions(init) + extra;
      assert |s| - 1 !in UnreadPositions(init);
    }
  }

  /** Every record is unread exactly when the unread counter equals the
      total counter. */
  lemma {:induction false} AllUnreadIff(s: seq<Message>)
    ensures |Unread(s)| == |s| <==> forall k :: 0 <= k < |s| ==> !s[k].read
  {
    if s != [] {
      AllUnreadIff(s[1..]);
      if s[0].read {
        assert |Unread(s)| == |Unread(s[1..])| <= |s| - 1;
      } else {
        assert forall k :: 1 <= k < |s| ==> s[k] == s[1..][k - 1];
      }
    }
  }

  /** The record at `i` with its read flag set, everything else as it was. */
  function MarkedRead(s: seq<Message>, i: nat): (t: seq<Message>)
    requires i < |s|
    ensures |t| == |s| && t[i].read
    ensures t[i].subject == s[i].subject && t[i].description == s[i].description
    ensures forall k :: 0 <= k < |s| && k != i ==> t[k] == s[k]
  {
    s[i := s[i].(read := true)]
  }

  /** Marking a record read lowers the unread count by one if it was unread,
      and leaves it alone if it was already read. */
  lemma {:induction false} MarkedReadCount(s: seq<Message>, i: nat)
    requires i < |s|
    ensures |Unread(MarkedRead(s, i))| == |Unread(s)| - (if s[i].read then 0 else 1)
  {
    var t := MarkedRead(s, i);
    if i == 0 {
      assert t[1..] == s[1..];
    } else {
      assert t[1..] == MarkedRead(s[1..], i - 1);
      MarkedReadCount(s[1..], i - 1);
    }
  }

  /** Marking the same record read twice is the same as marking it once. */
  lemma MarkedReadIdempotent(s: seq<Message>, i: nat)
    requires i < |s|
    ensures MarkedRead(MarkedRead(s, i), i) == MarkedRead(s, i)
  {
  }

  /** The store. `messages` is the only state; the two counters are
      functions of it, so they cannot go stale. */
  class MessagesStore {
    var messages: seq<Message>

    /** A new store holds no messages, so both counters are zero. */
    constructor ()
      ensures messages == []
      ensures MessageCount() == 0 && UnreadMessageCount() == 0
    {
      messages := [];
    }

    /** The `messageCount` getter. */
    function MessageCount(): nat
      reads this
    {
      |messages|
    }

    /** The `unreadMessageCount` getter: never more than the total. */
    function UnreadMessageCount(): (c: nat)
      reads this
      ensures c <= MessageCount()
      ensures c == |UnreadPositions(messages)|
    {
      UnreadCountIsPositions(messages);
      |Unread(messages)|
    }

    /** Replacing the whole list (`store.messages = ...`). */
    method SetMessages(s: seq<Message>)
      modifies this
      ensures messages == s
      ensures MessageCount() == |s|
      ensures UnreadMessageCount() == |Unread(s)|
    {
      messages := s;
    }

    /** A click on a rendered preview sets that record's `read` to true. */
    method MarkRead(i: nat)
      requires i < |messages|
      modifies this
      ensures messages == MarkedRead(old(messages), i)
      ensures MessageCount() == old(MessageCount())
      ensures UnreadMessageCount() == old(UnreadMessageCount()) - (if old(messages)[i].read then 0 else 1)
    {
      MarkedReadCount(messages, i);
      messages := MarkedRead(messages, i);
    }
  }
}
