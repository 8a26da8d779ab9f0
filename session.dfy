/** The session state of the chat page and the three handlers that change it:
    uploading a resume, submitting a chat prompt, and starting over. */
module Session {
  import opened Wrappers
  import opened Strings
  import opened Backend

  datatype Role = User | Assistant

  /** One transcript entry. */
  datatype Message = Message(role: Role, content: string)

  /** How an optional filename appears inside a Python f-string. */
  function FilenameText(filename: Option<string>): (t: string)
    ensures filename.Some? ==> t == filename.value
    ensures filename.None? ==> t == "None"
  {
    match filename
    case Some(f) => f
    case None => "None"
  }

  const GreetingHead: string := "I've finished analyzing **"
  const GreetingTail: string := "**. What would you like to know?"

  /** The assistant's first message after a successful upload: the fixed
      opening, the filename as the f-string shows it, the fixed question. */
  function Greeting(filename: Option<string>): (g: string)
    ensures |g| == |GreetingHead| + |FilenameText(filename)| + |GreetingTail|
    ensures g[..|GreetingHead|] == GreetingHead
    ensures g[|g| - |GreetingTail|..] == GreetingTail
  {
    GreetingHead + FilenameText(filename) + GreetingTail
  }

  /** The greeting names the uploaded file (or says None when the backend
      returned no filename), right after its fixed opening. */
  lemma GreetingNamesFile(filename: Option<string>)
    ensures filename.Some? ==> OccursAt(Greeting(filename), filename.value, |GreetingHead|)
    ensures filename.None? ==> OccursAt(Greeting(filename), "None", |GreetingHead|)
  {
  }

  /** The session of one user: the transcript, whether a resume is loaded, and
      the name the backend gave for it. */
  class Session {
    var messages: seq<Message>
    var resumeUploaded: bool
    var filename: Option<string>

    /** Holds in every state the handlers reach from a fresh session: without
        a resume, nothing has been said and no file is named; with one, the
        transcript opens with the greeting for that file, followed by pairs of
        a non-empty user prompt and an assistant reply. */
    ghost predicate Valid()
      reads this
    {
      if !resumeUploaded then
        messages == [] && filename == None
      else
        && |messages| % 2 == 1
        && messages[0] == Message(Assistant, Greeting(filename))
        && forall k :: 1 <= k < |messages| ==>
             && messages[k].role == (if k % 2 == 1 then User else Assistant)
             && (k % 2 == 1 ==> messages[k].content != "")
    }

    /** The defaults set when the session starts. */
    constructor ()
      ensures messages == [] && !resumeUploaded && filename == None
      ensures Valid()
    {
      messages := [];
      resumeUploaded := false;
      filename := None;
    }

    /** The upload handler, run when the uploader holds a file. While a resume
        is loaded the uploader is inert: no call is made and nothing changes.
        Otherwise `result` is the backend's answer; an error is shown as a
        banner and changes nothing, a success loads the resume, keeps the
        returned filename and greets the user. */
    method Upload(result: UploadResult) returns (called: bool, banner: Option<string>)
      modifies this
      ensures called == !old(resumeUploaded)
      ensures banner == if called && result.UploadError? then Some(result.message) else None
      ensures !called || result.UploadError? ==>
        messages == old(messages) && resumeUploaded == old(resumeUploaded) && filename == old(filename)
      ensures called && result.UploadOk? ==>
        && resumeUploaded
        && filename == result.filename
        && messages == old(messages) + [Message(Assistant, Greeting(result.filename))]
      ensures old(Valid()) ==> Valid()
      ensures old(Valid()) && called && result.UploadOk? ==>
        messages == [Message(Assistant, Greeting(result.filename))]
    {
      called, banner := false, None;
      if !resumeUploaded {
        called := true;
        match result
        case UploadError(message) =>
          banner := Some(message);
        case UploadOk(name) =>
          resumeUploaded := true;
          filename := name;
          messages := messages + [Message(Assistant, Greeting(filename))];
      }
    }

    /** The chat handler. An empty `prompt` is no submission. Without a resume
        the user is warned and no query is made. Otherwise the prompt and then
        `reply`, what the query returned, are appended to the transcript. */
    method Submit(prompt: string, reply: string) returns (queried: bool, warned: bool)
      modifies this
      ensures queried == (prompt != "" && old(resumeUploaded))
      ensures warned == (prompt != "" && !old(resumeUploaded))
      ensures resumeUploaded == old(resumeUploaded) && filename == old(filename)
      ensures messages == if queried
        then old(messages) + [Message(User, prompt), Message(Assistant, reply)]
        else old(messages)
      ensures old(Valid()) ==> Valid()
    {
      queried, warned := false, false;
      if prompt != "" {
        if !resumeUploaded {
          warned := true;
        } else {
          messages := messages + [Message(User, prompt)];
          messages := messages + [Message(Assistant, reply)];
          queried := true;
        }
      }
    }

    /** The "Start Over" handler: whatever the state and whatever the backend
        made of the reset request, the session returns to its defaults. */
    method Reset()
      modifies this
      ensures messages == [] && !resumeUploaded && filename == None
      ensures Valid()
    {
      messages := [];
      resumeUploaded := false;
      filename := None;
    }
  }
}
