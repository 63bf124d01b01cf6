/** A sidebar entry: its name, avatar and last-message line. */
module ConversationItem {
  import opened Wrappers
  import opened Schema
  import Lists
  import Peers
  import ConversationList

  const PreviewLength: nat := 50
  const NoMessages: string := "No messages yet"

  /** The avatar: the peer's for a DM, the conversation's otherwise. */
  function Avatar(c: Peers.ConversationView, current: UserId): (a: Option<string>)
    ensures Peers.Peer(c, current).Some? ==> a == Peers.Peer(c, current).value.profile.avatarUrl
    ensures Peers.Peer(c, current).None? ==> a == c.avatarUrl
  {
    var peer := Peers.Peer(c, current);
    if peer.Some? then peer.value.profile.avatarUrl else c.avatarUrl
  }

  /** The last-message line: the first 50 characters of the content, with "..." when it
      is longer; "No messages yet" without a message or with empty content. */
  function Preview(messages: seq<ConversationList.MessagePreview>): (p: string)
    ensures messages == [] || messages[0].content.None? || messages[0].content.value == [] ==> p == NoMessages
    ensures messages != [] && messages[0].content.Some? && messages[0].content.value != [] ==>
      var text := messages[0].content.value;
      && |p| <= PreviewLength + 3
      && (|text| <= PreviewLength ==> p == text)
      && (|text| > PreviewLength ==> p == text[..PreviewLength] + "...")
  {
    if messages == [] || messages[0].content.None? || messages[0].content.value == [] then NoMessages
    else
      var text := messages[0].content.value;
      Lists.Take(text, PreviewLength) + (if |text| > PreviewLength then "..." else "")
  }

  /** A long message is cut to a 53-character line that begins with its first 50
      characters; a short one is shown whole. */
  lemma PreviewKeepsPrefix(m: ConversationList.MessagePreview)
    requires m.content.Some? && m.content.value != []
    ensures var p := Preview([m]);
      && p[..if |m.content.value| <= PreviewLength then |m.content.value| else PreviewLength] ==
           m.content.value[..if |m.content.value| <= PreviewLength then |m.content.value| else PreviewLength]
      && (|p| == PreviewLength + 3 <==> |m.content.value| > PreviewLength)
  {
  }

  /** "You: " goes in front of the line exactly when there is a last message and the
      viewer sent it. */
  function YouPrefix(messages: seq<ConversationList.MessagePreview>, current: UserId): (prefix: string)
    ensures prefix == "You: " <==> messages != [] && messages[0].sender == current
    ensures prefix == [] <==> !(messages != [] && messages[0].sender == current)
  {
    if messages != [] && messages[0].sender == current then "You: " else ""
  }
}
