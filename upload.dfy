/** The knowledge-base panel (`UploadForm`): the chosen file, the upload and
    delete flags, and the status line; `handleFileChange`, `handleUpload`,
    `handleDelete`, and the rules for the two buttons. */
module Upload {
  import opened Wrappers
  import opened JsText
  import opened Web
  import opened Auth

  datatype File = File(name: string)
  datatype Status = Idle | Success | Error

  const UploadUrl := "http://localhost:5000/upload"
  const DeleteUrl := "http://localhost:5000/delete_uploads"
  const UploadedText := "Uploaded successfully."
  const ClearedText := "Knowledge base cleared."
  const ClearFailedText := "Error clearing knowledge"
  const DeleteQuestion := "Are you sure you want to delete all uploaded knowledge? This cannot be undone."

  /** The upload: the file as form field "file", with the Bearer header. */
  function UploadRequest(token: string, file: File): Request {
    Request(Post, UploadUrl, [Bearer(token)], Form("file", file.name))
  }

  /** The delete: no body, the Bearer header only. */
  function DeleteRequest(token: string): Request {
    Request(Delete, DeleteUrl, [Bearer(token)], NoBody)
  }

  /** The status line after an upload: success only for an ok response. */
  function UploadResult(outcome: Outcome<()>): (Status, string) {
    match outcome
    case Ok(_) => (Success, UploadedText)
    case NotOk(error) => (Error, Or(error, "Upload failed"))
    case Threw(message) => (Error, message)
  }

  /** The status line after a delete: any failure reads the same. */
  function DeleteResult(outcome: Outcome<()>): (Status, string) {
    if outcome.Ok? then (Success, ClearedText) else (Error, ClearFailedText)
  }

  /** `disabled={!file || loading}` on the upload button. */
  function UploadDisabled(file: Option<File>, loading: bool): bool {
    file.None? || loading
  }

  /** The upload button's text. */
  function UploadLabel(status: Status, loading: bool): string {
    if status == Success && !loading then "Uploaded" else "Upload Document"
  }

  /** `disabled={deleteLoading || !token}` on the delete button. */
  function DeleteDisabled(deleteLoading: bool, token: Option<string>): bool {
    deleteLoading || !Truthy(token)
  }

  /** Right after a successful upload, the button reads "Uploaded" and is
      disabled until another file is chosen. */
  lemma AfterUploadButton(outcome: Outcome<()>)
    requires outcome.Ok?
    ensures UploadLabel(UploadResult(outcome).0, false) == "Uploaded"
    ensures UploadDisabled(None, false)
  {
  }

  /** `handleUpload` goes past its early return: a file is chosen and the
      user is signed in. */
  predicate UploadProceeds(file: Option<File>, token: Option<string>) {
    file.Some? && Truthy(token)
  }

  /** `handleDelete` goes past its early return and asks: signed in. */
  predicate DeleteProceeds(token: Option<string>) {
    Truthy(token)
  }

  /** The buttons' `disabled` rules against the handlers' early returns. The
      upload button checks the file but not the token, so a signed-out user
      can press it with a file chosen and `handleUpload` then does nothing;
      with a token, an enabled button always uploads. Every upload that can
      proceed while nothing is loading has its button enabled. The delete
      button checks the token, so pressing it always reaches `confirm`. */
  lemma ButtonsAgainstGuards(file: Option<File>, loading: bool, deleteLoading: bool, token: Option<string>)
    ensures !UploadDisabled(file, loading) && !Truthy(token) ==> !UploadProceeds(file, token)
    ensures !UploadDisabled(file, loading) && Truthy(token) ==> UploadProceeds(file, token)
    ensures UploadProceeds(file, token) && !loading ==> !UploadDisabled(file, loading)
    ensures !DeleteDisabled(deleteLoading, token) ==> DeleteProceeds(token)
  {
  }

  class UploadForm {
    var file: Option<File>
    var loading: bool
    var status: Status
    var message: string
    var deleteLoading: bool
    const session: Session

    constructor (session: Session)
      ensures file == None && !loading && status == Idle && message == "" && !deleteLoading
      ensures this.session == session
    {
      file := None;
      loading := false;
      status := Idle;
      message := "";
      deleteLoading := false;
      this.session := session;
    }

    /** `handleFileChange` with the selected files. */
    method ChangeFile(files: seq<File>)
      modifies this
      ensures files != [] ==> file == Some(files[0]) && status == Idle && message == ""
      ensures files == [] ==> file == old(file) && status == old(status) && message == old(message)
      ensures loading == old(loading) && deleteLoading == old(deleteLoading)
    {
      if |files| > 0 {
        file := Some(files[0]);
        status := Idle;
        message := "";
      }
    }

    /** The part of `handleUpload` before the request. */
    method BeginUpload() returns (req: Option<Request>)
      modifies this
      ensures req.Some? <==> UploadProceeds(old(file), session.token)
      ensures req.None? ==> loading == old(loading) && status == old(status)
      ensures req.Some? ==> req.value == UploadRequest(session.token.value, old(file).value)
                            && loading && status == Idle
      ensures file == old(file) && message == old(message) && deleteLoading == old(deleteLoading)
    {
      if file.None? || !Truthy(session.token) {
        return None;
      }
      loading := true;
      status := Idle;
      req := Some(UploadRequest(session.token.value, file.value));
    }

    /** The part of `handleUpload` after the request. */
    method FinishUpload(outcome: Outcome<()>)
      modifies this
      ensures (status, message) == UploadResult(outcome)
      ensures file == (if outcome.Ok? then None else old(file))
      ensures !loading && deleteLoading == old(deleteLoading)
    {
      match outcome {
        case Ok(_) =>
          status := Success;
          message := UploadedText;
          file := None;
        case NotOk(error) =>
          status := Error;
          message := Or(error, "Upload failed");
        case Threw(msg) =>
          status := Error;
          message := msg;
      }
      loading := false;
    }

    /** `handleUpload` as one step. */
    method HandleUpload(outcome: Outcome<()>) returns (req: Option<Request>)
      modifies this
      ensures req.Some? <==> UploadProceeds(old(file), session.token)
      ensures req.None? ==> file == old(file) && loading == old(loading)
                            && status == old(status) && message == old(message)
      ensures req.Some? ==> req.value == UploadRequest(session.token.value, old(file).value)
                            && (status, message) == UploadResult(outcome) && !loading
                            && file == (if outcome.Ok? then None else old(file))
      ensures deleteLoading == old(deleteLoading)
    {
      req := BeginUpload();
      if req.Some? {
        FinishUpload(outcome);
      }
    }

    /** The part of `handleDelete` before the request: only a signed-in user
        is asked, and only a confirmed delete is sent. */
    method BeginDelete(answer: bool) returns (req: Option<Request>)
      modifies this, session.browser
      ensures req.Some? <==> DeleteProceeds(session.token) && answer
      ensures DeleteProceeds(session.token) ==>
        session.browser.dialogs == old(session.browser.dialogs) + [Confirm(DeleteQuestion, answer)]
      ensures !DeleteProceeds(session.token) ==> session.browser.dialogs == old(session.browser.dialogs)
      ensures req.Some? ==> req.value == DeleteRequest(session.token.value) && deleteLoading
      ensures req.None? ==> deleteLoading == old(deleteLoading)
      ensures file == old(file) && loading == old(loading) && status == old(status) && message == old(message)
      ensures session.browser.storage == old(session.browser.storage)
      ensures session.browser.history == old(session.browser.history)
    {
      if !Truthy(session.token) {
        return None;
      }
      var confirmed := session.browser.AskConfirm(DeleteQuestion, answer);
      if !confirmed {
        return None;
      }
      deleteLoading := true;
      req := Some(DeleteRequest(session.token.value));
    }

    /** The part of `handleDelete` after the request. */
    method FinishDelete(outcome: Outcome<()>)
      modifies this
      ensures (status, message) == DeleteResult(outcome)
      ensures !deleteLoading && file == old(file) && loading == old(loading)
    {
      if outcome.Ok? {
        message := ClearedText;
        status := Success;
      } else {
        message := ClearFailedText;
        status := Error;
      }
      deleteLoading := false;
    }

    /** `handleDelete` as one step; the file is never touched. */
    method HandleDelete(answer: bool, outcome: Outcome<()>) returns (req: Option<Request>)
      modifies this, session.browser
      ensures req.Some? <==> DeleteProceeds(session.token) && answer
      ensures DeleteProceeds(session.token) ==>
        session.browser.dialogs == old(session.browser.dialogs) + [Confirm(DeleteQuestion, answer)]
      ensures !DeleteProceeds(session.token) ==> session.browser.dialogs == old(session.browser.dialogs)
      ensures req.None? ==> status == old(status) && message == old(message)
                            && deleteLoading == old(deleteLoading)
      ensures req.Some? ==> req.value == DeleteRequest(session.token.value)
                            && (status, message) == DeleteResult(outcome) && !deleteLoading
      ensures file == old(file) && loading == old(loading)
      ensures session.browser.storage == old(session.browser.storage)
      ensures session.browser.history == old(session.browser.history)
    {
      req := BeginDelete(answer);
      if req.Some? {
        FinishDelete(outcome);
      }
    }
  }
}
