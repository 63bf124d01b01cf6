/** `MessageList`: what the message pane shows, and the flags it passes to each item. */
module MessageList {
  import opened Schema

  /** The props of one `MessageItem`. */
  datatype ItemProps = ItemProps(message: Message, isOwn: bool, isRead: bool)

  /** The pane: a spinner while loading, the placeholder for an empty list, else items. */
  datatype Pane = Spinner | Placeholder | Items(items: seq<ItemProps>)

  /** `isRead` is the DM-and-own shortcut; no read receipt is consulted. */
  function Render(loading: bool, messages: seq<Message>, current: UserId, kind: ConversationKind): (p: Pane)
    ensures loading ==> p == Spinner
    ensures !loading && messages == [] ==> p == Placeholder
    ensures !loading && messages != [] ==> p.Items? && |p.items| == |messages|
    ensures p.Items? ==> forall i :: 0 <= i < |p.items| ==>
      && p.items[i].message == messages[i]
      && (p.items[i].isOwn <==> messages[i].sender == current)
      && (p.items[i].isRead <==> kind == Dm && messages[i].sender == current)
  {
    if loading then Spinner
    else if messages == [] then Placeholder
    else Items(seq(|messages|, i requires 0 <= i < |messages| =>
      ItemProps(messages[i], messages[i].sender == current, kind == Dm && messages[i].sender == current)))
  }

  /** No message of another sender, and no message of a group, is ever marked read. */
  lemma ReadOnlyOwnInDm(loading: bool, messages: seq<Message>, current: UserId, kind: ConversationKind)
    ensures var p := Render(loading, messages, current, kind);
      p.Items? ==> forall i :: 0 <= i < |p.items| && p.items[i].isRead ==> p.items[i].isOwn && kind == Dm
  {
  }
}
