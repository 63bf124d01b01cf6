/** `MessageItem`: one message bubble with its edit mode, delete dialog and indicators.
    The edit and delete actions it calls are recorded as requests; their outcome is a
    parameter. */
module MessageItem {
  import opened Wrappers
  import opened Schema
  import Text

  /** The edit and delete menu: own messages only, and not while editing. */
  predicate MenuShown(isOwn: bool, isEditing: bool) {
    isOwn && !isEditing
  }

  /** "(edited)": an edit time is set and the item is not in edit mode. */
  predicate EditedShown(editedAt: Option<Time>, isEditing: bool) {
    editedAt.Some? && !isEditing
  }

  /** "Seen": own and read. */
  predicate SeenShown(isOwn: bool, isRead: bool) {
    isOwn && isRead
  }

  /** Whether saving `text` sends nothing: it is blank, or it is the original content. */
  function NothingToSave(text: string, original: Option<string>): (b: bool)
    ensures b <==> Text.AllSpace(text) || original == Some(text)
  {
    Text.BlankIffAllSpace(text);
    Text.IsBlank(text) || original == Some(text)
  }

  class Item {
    const message: Message
    const isOwn: bool
    const isRead: bool
    var isEditing: bool
    var editedContent: string
    var showDeleteDialog: bool
    var loading: bool
    /** The texts sent to `editMessage`, oldest first. */
    var editRequests: seq<string>
    /** How many times `deleteMessage` was called. */
    var deleteRequests: nat

    /** The edit buffer starts as the content, or empty. */
    constructor (message: Message, isOwn: bool, isRead: bool)
      ensures this.message == message && this.isOwn == isOwn && this.isRead == isRead
      ensures !isEditing && editedContent == message.content.GetOr("") && !showDeleteDialog && !loading
      ensures editRequests == [] && deleteRequests == 0
    {
      this.message := message;
      this.isOwn := isOwn;
      this.isRead := isRead;
      isEditing := false;
      editedContent := message.content.GetOr("");
      showDeleteDialog := false;
      loading := false;
      editRequests := [];
      deleteRequests := 0;
    }

    /** "Edit" in the menu, which exists only while the menu is shown. */
    method StartEdit()
      modifies this`isEditing
      ensures isEditing == (old(isEditing) || MenuShown(isOwn, old(isEditing)))
    {
      if MenuShown(isOwn, isEditing) {
        isEditing := true;
      }
    }

    /** The edit box, which exists only in edit mode. */
    method Type(text: string)
      modifies this`editedContent
      ensures editedContent == if isEditing then text else old(editedContent)
    {
      if isEditing {
        editedContent := text;
      }
    }

    /** Save, a button of edit mode. Nothing is sent for a blank or unchanged text; edit
        mode just closes. Otherwise the untrimmed text is sent, and edit mode closes only
        when that succeeded. */
    method Save(failed: bool)
      modifies this`isEditing, this`loading, this`editRequests
      ensures !loading
      ensures !old(isEditing) ==> !isEditing && editRequests == old(editRequests)
      ensures old(isEditing) && NothingToSave(editedContent, message.content) ==>
        !isEditing && editRequests == old(editRequests)
      ensures old(isEditing) && !NothingToSave(editedContent, message.content) ==>
        editRequests == old(editRequests) + [editedContent] && isEditing == failed
    {
      if !isEditing {
        loading := false;
        return;
      }
      if NothingToSave(editedContent, message.content) {
        isEditing := false;
        loading := false;
        return;
      }
      loading := true;
      editRequests := editRequests + [editedContent];
      if !failed {
        isEditing := false;
      }
      loading := false;
    }

    /** Cancel, a button of edit mode: edit mode closes and the buffer is the original
        content again. */
    method Cancel()
      modifies this`isEditing, this`editedContent
      ensures !isEditing
      ensures editedContent == if old(isEditing) then message.content.GetOr("") else old(editedContent)
    {
      if !isEditing {
        return;
      }
      isEditing := false;
      editedContent := message.content.GetOr("");
    }

    /** "Delete" in the menu opens the confirmation dialog. */
    method AskDelete()
      modifies this`showDeleteDialog
      ensures showDeleteDialog == (old(showDeleteDialog) || MenuShown(isOwn, isEditing))
    {
      if MenuShown(isOwn, isEditing) {
        showDeleteDialog := true;
      }
    }

    /** Confirming in the open dialog sends the delete; the dialog closes when it
        succeeded. */
    method ConfirmDelete(failed: bool)
      modifies this`showDeleteDialog, this`loading, this`deleteRequests
      ensures !old(showDeleteDialog) ==> !showDeleteDialog && deleteRequests == old(deleteRequests) && loading == old(loading)
      ensures old(showDeleteDialog) ==> !loading && deleteRequests == old(deleteRequests) + 1 && showDeleteDialog == failed
    {
      if !showDeleteDialog {
        return;
      }
      loading := true;
      deleteRequests := deleteRequests + 1;
      if !failed {
        showDeleteDialog := false;
      }
      loading := false;
    }

    /** Cancel, or any other dismissal of the dialog: it closes and nothing is sent. */
    method CancelDelete()
      modifies this`showDeleteDialog
      ensures !showDeleteDialog && deleteRequests == old(deleteRequests)
    {
      showDeleteDialog := false;
    }
  }

  /** Another sender's message can be neither edited nor deleted from its item. */
  method OthersCannotEdit(item: Item, text: string)
    requires !item.isOwn && !item.isEditing && !item.showDeleteDialog
    modifies item
    ensures !item.isEditing && !item.showDeleteDialog
    ensures item.editRequests == old(item.editRequests) && item.deleteRequests == old(item.deleteRequests)
  {
    item.StartEdit();
    item.Type(text);
    item.Save(false);
    item.AskDelete();
    item.ConfirmDelete(false);
  }
}
