/** What the view layer does with the store (src/App.js and
    src/MessagePreview.js), reduced to its effect on the store. */
module App {
  import opened Utils
  import opened Store

  /** A stored generated list is all unread: both counters equal its size. */
  lemma {:induction false} GeneratedCounts(n: nat)
    ensures |Generated(n)| == n
    ensures |Unread(Generated(n))| == n
  {
    GeneratedLength(n);
    forall k | 0 <= k < n
      ensures !Generated(n)[k].read
    {
      GeneratedAt(n, k);
    }
    AllUnreadIff(Generated(n));
  }

  /** `componentDidMount`: fills the store with five generated messages. */
  method ComponentDidMount(store: MessagesStore)
    modifies store
    ensures store.messages == Generated(5)
    ensures store.MessageCount() == 5 && store.UnreadMessageCount() == 5
  {
    var messages := GenerateMessages(5);
    store.SetMessages(messages);
    GeneratedCounts(5);
  }

  /** One session of the inbox: mount, then click the third preview twice.
      Returns the unread counter after mounting and after each click. */
  method ClickThirdTwice() returns (total: nat, mounted: nat, firstClick: nat, secondClick: nat)
    ensures total == 5
    ensures mounted == 5 && firstClick == 4 && secondClick == 4
  {
    var store := new MessagesStore();
    ComponentDidMount(store);
    total := store.MessageCount();
    mounted := store.UnreadMessageCount();
    GeneratedAt(5, 2);
    store.MarkRead(2);
    firstClick := store.UnreadMessageCount();
    store.MarkRead(2);
    secondClick := store.UnreadMessageCount();
  }
}
