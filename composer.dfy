/** `Composer`: the message box and its send guard. The send is asynchronous, so it is
    two events: the request goes out, then its outcome arrives. */
module Composer {
  import Text

  /** The send button is disabled for a blank text or while a send is in flight. */
  predicate SendDisabled(content: string, sending: bool) {
    Text.IsBlank(content) || sending
  }

  /** Enter sends, Shift+Enter is a line break. */
  predicate SendsOnKey(isEnter: bool, shift: bool) {
    isEnter && !shift
  }

  class ComposerState {
    var content: string
    var sending: bool
    /** The trimmed texts sent to `sendMessage`, oldest first. */
    var sent: seq<string>

    constructor ()
      ensures content == [] && !sending && sent == []
    {
      content := [];
      sending := false;
      sent := [];
    }

    /** Typing; the box is disabled while sending. */
    method Type(text: string)
      modifies this`content
      ensures content == if sending then old(content) else text
    {
      if !sending {
        content := text;
      }
    }

    /** `handleSend` up to the request: nothing for a blank text or while sending;
        otherwise the trimmed text is sent and sending starts. */
    method BeginSend()
      modifies this`sending, this`sent
      ensures SendDisabled(content, old(sending)) ==> sending == old(sending) && sent == old(sent)
      ensures !SendDisabled(content, old(sending)) ==> sending && sent == old(sent) + [Text.Trim(content)]
    {
      if Text.IsBlank(content) || sending {
        return;
      }
      sending := true;
      sent := sent + [Text.Trim(content)];
    }

    /** The outcome of the request: the box is cleared only after a success. */
    method CompleteSend(succeeded: bool)
      modifies this`sending, this`content
      ensures !sending
      ensures old(sending) && succeeded ==> content == []
      ensures !(old(sending) && succeeded) ==> content == old(content)
    {
      if sending && succeeded {
        content := [];
      }
      sending := false;
    }

    /** A key press in the box. */
    method KeyDown(isEnter: bool, shift: bool)
      modifies this`sending, this`sent
      ensures SendsOnKey(isEnter, shift) && !SendDisabled(content, old(sending)) ==>
        sending && sent == old(sent) + [Text.Trim(content)]
      ensures !(SendsOnKey(isEnter, shift) && !SendDisabled(content, old(sending))) ==>
        sending == old(sending) && sent == old(sent)
    {
      if SendsOnKey(isEnter, shift) {
        BeginSend();
      }
    }
  }

  /** A second Enter while the first send is in flight sends nothing more. */
  method NoDoubleSend(c: ComposerState)
    requires !Text.IsBlank(c.content) && !c.sending
    modifies c
    ensures c.sent == old(c.sent) + [Text.Trim(c.content)]
  {
    c.KeyDown(true, false);
    c.KeyDown(true, false);
  }

  /** What is sent is never blank. */
  lemma SentIsNotBlank(content: string)
    requires !Text.IsBlank(content)
    ensures Text.Trim(content) != [] && !Text.IsBlank(Text.Trim(content))
  {
    Text.TrimIsInnerSlice(content);
    var t := Text.Trim(content);
    Text.TrimIsInnerSlice(t);
    Text.BlankIffAllSpace(t);
  }
}
