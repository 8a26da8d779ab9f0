# Chat client for a resume-mentoring backend: verified model

The system is a small Streamlit page (`app.py`) on which a user uploads a
resume and then chats with a remote AI backend about it. This project models
the two parts of it that carry logic:

- **Answer extraction** (module `Backend`, over the string operations of
  module `Strings`). The backend echoes its prompt before the real answer, so
  the client keeps only what follows the *last* `"Your Answer:"` in the
  `response` field, stripped of surrounding whitespace, and keeps the text
  unchanged when the marker is absent. A reply without `response` is replaced
  by the placeholder `"Sorry, an empty response was received."` before the
  same check. A failed request becomes a reply starting with
  `"Error: The request to the AI backend failed. "`. Python's `str.rfind` is
  `Strings.RFind`; `str.strip` is `Strings.Strip` over a whitespace class
  `ws: char -> bool` that every function and lemma takes as a parameter, so
  the results hold for any whitespace class (`Strings.AsciiWhitespace` is
  one instance, used in the worked example).
- **Session state** (module `Session`). A class `Session` holds the
  transcript (`messages`, role/content pairs), the `resumeUploaded` flag and
  the optional `filename`, and has one method per UI handler: `Upload`,
  `Submit` and `Reset`. The backend's answers arrive as parameters: the
  upload result as `UploadResult` (an error message, or success with an
  optional filename), the chat reply as the string that `query_backend`
  returned (modelled by `Backend.QueryBackend`). `Valid()` holds in
  every state the handlers reach from a fresh session: without a resume the
  transcript is empty and no file is named; with one, the transcript starts
  with the greeting for that file and continues with pairs of a non-empty
  user prompt and an assistant reply. Every
  handler keeps `Valid()`.

A successful upload stores `result.get("filename")`, which may be missing, so
`resumeUploaded` can be true while `filename` is `None`; the greeting then
says `None`, as a Python f-string does. The model does not claim that the flag
holds exactly when a filename is present.

## Model

| member | source | states |
|---|---|---|
| Strings.RFind | app.py:46 | The result is -1 exactly when the pattern does not occur; otherwise the pattern occurs at the result and at no higher index. |
| Strings.TrimLeft | app.py:48 | The result is a suffix of the input; every dropped character is whitespace; the result is empty or starts with a non-whitespace character. |
| Strings.TrimRight | app.py:48 | The result is a prefix of the input; every dropped character is whitespace; the result is empty or ends with a non-whitespace character. |
| Strings.Strip | app.py:48 | The result is a slice of the input with only whitespace outside it, and it neither starts nor ends with whitespace. |
| Strings.StrippedAtIsStrip | app.py:48 | Any slice with those properties is the stripped string, so the characterisation determines `strip` uniquely. |
| Strings.StripIdempotent | app.py:48 | Stripping a stripped string changes nothing. |
| Strings.StripLacks | app.py:48 | Stripping a text without the pattern leaves a text without the pattern. |
| Strings.SuffixAfterLastLacks | app.py:46-48 | The text after the last occurrence of a non-empty pattern contains no occurrence of it. |
| Backend.UploadResume | app.py:26-34 | A transport failure becomes an error carrying `"API connection failed: "` and the failure's description; a JSON reply is an error exactly when it has an `error` key, and a success keeps its optional `filename`. |
| Backend.ExtractAnswer | app.py:43-50 | Without the marker the text is returned verbatim; with it, the result contains no marker; the result is never longer than the text. |
| Backend.ExtractAfterLastMarker | app.py:46-48 | If the marker occurs at `p` and at no later index, the result is the text after that occurrence, stripped. |
| Backend.ExtractIdempotent | app.py:46-48 | Extracting the answer a second time changes nothing. |
| Backend.PlaceholderLacksMarker | app.py:44-47 | The empty-response placeholder contains no marker. |
| Backend.QueryBackend | app.py:36-53 | A failed request yields a text starting with the failure prefix; a reply without `response` yields the placeholder unchanged; a `response` without the marker is returned verbatim, and one with it yields a text without the marker. |
| Backend.PreambleMarkerAnswer | app.py:43-48 | Any preamble, then the marker, then an answer that does not contain the marker, yields the answer stripped. |
| Backend.ScratchpadExample | app.py:43-48 | `"...scratchpad text...Your Answer: The real answer"` yields `"The real answer"`. |
| Wrappers.Option.GetOr | app.py:44 | A present `response` is used as it is; a missing one is replaced by the given default. |
| Session.FilenameText | app.py:89 | A returned filename is shown as it is; a missing one is shown as `None`, as the f-string renders Python's `None`. |
| Session.Greeting | app.py:87-90 | The greeting is the fixed opening `I've finished analyzing **`, the shown filename and the fixed closing `**. What would you like to know?`, with nothing else. |
| Session.GreetingNamesFile | app.py:86-90 | The greeting contains the returned filename right after its fixed opening, or `None` when no filename was returned. |
| Session.Session.constructor | app.py:18-23 | A new session has an empty transcript, no resume and no filename, and satisfies `Valid()`. |
| Session.Session.Upload | app.py:78-90 | With a resume loaded, no upload call is made and nothing changes. An error is shown and changes nothing. A success sets the flag, stores the returned filename and appends exactly one assistant greeting naming it; from a valid state that greeting is the whole transcript. `Valid()` is kept. |
| Session.Session.Submit | app.py:114-130 | An empty prompt does nothing. Without a resume a warning is shown, no query is made and nothing changes. With one, the transcript grows by the user prompt and then the assistant reply, earlier entries untouched, flag and filename unchanged. `Valid()` is kept. |
| Session.Session.Reset | app.py:97-103 | Whatever the previous state, the transcript is empty, the flag is false and the filename is `None`, and `Valid()` holds. |

## Left out

- The HTTP calls to `/upload-resume`, `/query` and `/reset`, their timeouts (60 and 180 seconds), `raise_for_status` and JSON decoding: foreign I/O. Their outcomes are the inputs `UploadReply`, `UploadResult` and `QueryReply`; every transport failure (including a non-2xx status) is one case carrying its description.
- The reset request to the backend: its outcome is swallowed by the source and has no effect on the session, so `Session.Session.Reset` takes no parameter for it.
- Streamlit rendering, the page configuration, the sidebar status text, spinners, `st.rerun` and the loop that displays the transcript: user interface.
- Whether the uploader holds a file: `Session.Session.Upload` models the handler run when it does; with no file the handler does nothing. The PDF bytes, their name and the MIME type are never inspected by the client.
- JSON values of unexpected type (a `response` or `error` that is not a string, a reply that is not an object): the source does not handle them either; the model assumes strings.
- The exact whitespace set of Python's `str.strip()` (which includes Unicode spaces): whitespace is the parameter `ws`.
