/**
 * The browser chat's state (the `App` component): the selected files, the message being typed,
 * the transcript, and the flags that guard a submission in flight. A submission has two
 * phases: `Submit` (up to the network call) and `Complete` (when the call settles).
 *
 * The network and the markdown renderer are outside the model: the settled call is an
 * `Outcome`, and the renderer is a function from reply to displayed text.
 */
module ChatClient {
  import opened Wrappers

  datatype Sender = User | Ai

  /** One transcript entry, `{ type, text }`. */
  datatype Entry = Entry(sender: Sender, text: string)

  /** The multipart form a submission posts: every selected file and the message. */
  datatype Request<F> = Request(files: seq<F>, message: string)

  /** How the posted request settles: a reply, or an error (network, server or renderer). */
  datatype Outcome = Replied(reply: string) | Failed

  const ProcessingError := "An error occurred while processing the PDF."

  /** The entry `Complete` appends for an outcome. */
  function ReplyEntry(outcome: Outcome, render: string -> string): (e: Entry)
    ensures e.sender == Ai
    ensures outcome.Failed? ==> e.text == ProcessingError
    ensures outcome.Replied? ==> e.text == render(outcome.reply)
  {
    match outcome
    case Replied(reply) => Entry(Ai, render(reply))
    case Failed => Entry(Ai, ProcessingError)
  }

  class ChatSession<F> {
    var files: seq<F>
    var message: string
    var messages: seq<Entry>
    var loading: bool
    var aiTyping: bool
    var showNoPdfPopup: bool

    /** The typing indicator is shown exactly while a submission is in flight. */
    ghost predicate Valid()
      reads this
    {
      aiTyping == loading
    }

    constructor ()
      ensures Valid()
      ensures files == [] && message == "" && messages == []
      ensures !loading && !aiTyping && !showNoPdfPopup
    {
      files, message, messages := [], "", [];
      loading, aiTyping, showNoPdfPopup := false, false, false;
    }

    /** `handleFileChange`: a new selection replaces the old one. */
    method SelectFiles(selection: seq<F>)
      requires Valid()
      modifies this
      ensures Valid() && files == selection
      ensures message == old(message) && messages == old(messages) && loading == old(loading)
      ensures aiTyping == old(aiTyping) && showNoPdfPopup == old(showNoPdfPopup)
    {
      files := selection;
    }

    /** `handleMessageChange` */
    method EditMessage(text: string)
      requires Valid()
      modifies this
      ensures Valid() && message == text
      ensures files == old(files) && messages == old(messages) && loading == old(loading)
      ensures aiTyping == old(aiTyping) && showNoPdfPopup == old(showNoPdfPopup)
    {
      message := text;
    }

    /** `handleNoPdfPopupClose` */
    method CloseNoPdfPopup()
      requires Valid()
      modifies this
      ensures Valid() && !showNoPdfPopup
      ensures files == old(files) && message == old(message) && messages == old(messages)
      ensures loading == old(loading) && aiTyping == old(aiTyping)
    {
      showNoPdfPopup := false;
    }

    /** `handleUploadFiles` up to the network call: ignored while a submission is in flight,
        a warning without files, otherwise the user's entry is appended at once and the
        request returned. */
    method Submit() returns (sent: Option<Request<F>>)
      requires Valid()
      modifies this
      ensures Valid()
      ensures old(loading) ==> sent == None && unchanged(this)
      ensures !old(loading) && old(files) == [] ==>
        sent == None && showNoPdfPopup
        && files == old(files) && message == old(message) && messages == old(messages)
        && loading == old(loading) && aiTyping == old(aiTyping)
      ensures !old(loading) && old(files) != [] ==>
        sent == Some(Request(old(files), old(message)))
        && loading && aiTyping
        && messages == old(messages) + [Entry(User, old(message))]
        && files == old(files) && message == old(message) && showNoPdfPopup == old(showNoPdfPopup)
    {
      if loading {
        return None;
      }
      if |files| == 0 {
        showNoPdfPopup := true;
        return None;
      }
      loading := true;
      aiTyping := true;
      sent := Some(Request(files, message));
      messages := messages + [Entry(User, message)];
    }

    /** `handleUploadFiles` after the network call settles: one entry for the outcome is
        appended to the transcript as it is now, then the `finally` reset. */
    method Complete(outcome: Outcome, render: string -> string)
      requires Valid() && loading
      modifies this
      ensures Valid()
      ensures messages == old(messages) + [ReplyEntry(outcome, render)]
      ensures !loading && !aiTyping && message == ""
      ensures files == old(files) && showNoPdfPopup == old(showNoPdfPopup)
    {
      match outcome {
        case Replied(reply) =>
          var formattedResponse := render(reply);
          messages := messages + [Entry(Ai, formattedResponse)];
        case Failed =>
          messages := messages + [Entry(Ai, ProcessingError)];
      }
      loading := false;
      aiTyping := false;
      message := "";
    }

    /** `handleClear`: empties the transcript and nothing else; a submission in flight goes on. */
    method Clear()
      requires Valid()
      modifies this
      ensures Valid() && messages == []
      ensures files == old(files) && message == old(message) && loading == old(loading)
      ensures aiTyping == old(aiTyping) && showNoPdfPopup == old(showNoPdfPopup)
    {
      messages := [];
    }

    /** `handleKeyDown`: Enter submits unless a submission is in flight; other keys do nothing. */
    method KeyDown(key: string) returns (sent: Option<Request<F>>)
      requires Valid()
      modifies this
      ensures Valid()
      ensures key != "Enter" || old(loading) ==> sent == None && unchanged(this)
      ensures key == "Enter" && !old(loading) && old(files) == [] ==>
        sent == None && showNoPdfPopup && files == old(files) && message == old(message)
        && messages == old(messages) && !loading && !aiTyping
      ensures key == "Enter" && !old(loading) && old(files) != [] ==>
        sent == Some(Request(old(files), old(message))) && loading && aiTyping
        && messages == old(messages) + [Entry(User, old(message))]
        && files == old(files) && message == old(message) && showNoPdfPopup == old(showNoPdfPopup)
    {
      sent := None;
      if key == "Enter" && !loading {
        sent := Submit();
      }
    }

    /** The send button: submits unless a submission is in flight. */
    method SendClick() returns (sent: Option<Request<F>>)
      requires Valid()
      modifies this
      ensures Valid()
      ensures old(loading) ==> sent == None && unchanged(this)
      ensures !old(loading) && old(files) == [] ==>
        sent == None && showNoPdfPopup && files == old(files) && message == old(message)
        && messages == old(messages) && !loading && !aiTyping
      ensures !old(loading) && old(files) != [] ==>
        sent == Some(Request(old(files), old(message))) && loading && aiTyping
        && messages == old(messages) + [Entry(User, old(message))]
        && files == old(files) && message == old(message) && showNoPdfPopup == old(showNoPdfPopup)
    {
      sent := None;
      if !loading {
        sent := Submit();
      }
    }
  }

  /** A second Enter while the first submission is in flight posts nothing; the transcript ends
      with the question and its answer, and the input is cleared. */
  method DoubleEnterPostsOnce<F>(file: F, question: string, outcome: Outcome, render: string -> string)
    returns (first: Option<Request<F>>, second: Option<Request<F>>, transcript: seq<Entry>, input: string)
    ensures first == Some(Request([file], question)) && second == None
    ensures transcript == [Entry(User, question), ReplyEntry(outcome, render)]
    ensures input == ""
  {
    var session := new ChatSession<F>();
    session.SelectFiles([file]);
    session.EditMessage(question);
    first := session.KeyDown("Enter");
    second := session.KeyDown("Enter");
    session.Complete(outcome, render);
    transcript, input := session.messages, session.message;
  }

  /** Clearing does not cancel a submission in flight: its answer still arrives, alone. */
  method ClearDuringRequest<F>(file: F, question: string, outcome: Outcome, render: string -> string)
    returns (transcript: seq<Entry>)
    ensures transcript == [ReplyEntry(outcome, render)]
  {
    var session := new ChatSession<F>();
    session.SelectFiles([file]);
    session.EditMessage(question);
    var sent := session.SendClick();
    session.Clear();
    session.Complete(outcome, render);
    transcript := session.messages;
  }

  /** Without a selection nothing is posted and the transcript stays as it was. */
  method NoFilesShowsWarning<F>(question: string) returns (posted: Option<Request<F>>, transcript: seq<Entry>, warned: bool)
    ensures posted == None && transcript == [] && warned
  {
    var session := new ChatSession<F>();
    session.EditMessage(question);
    posted := session.SendClick();
    transcript, warned := session.messages, session.showNoPdfPopup;
  }
}
