/** The face-recognition workflow: pick a mode (recognise someone, or add a new person),
    choose a photo that passes the type and size checks, then either ask the recognition
    service who it is or store the person with a name, a relation and notes. */
module FaceRecognition {
  import opened Common
  import opened Text

  /** The largest photo accepted, 5 MiB. */
  const MaxImageBytes: nat := 5 * 1024 * 1024

  const TypeError := "Please select a valid image file."
  const SizeError := "Image file is too large. Please select a file smaller than 5MB."
  const NoImageError := "Please select an image first."
  const RecognizeError := "An error occurred while processing the image. Please try again."
  const MissingFieldsError := "Please fill in all required fields and select an image."
  const AddRejectedDefault := "Failed to add face"
  const AddError := "An error occurred while adding the face. Please try again."

  const RecognizePrompt := "Please upload a photo to recognize the person."
  const AddPrompt := "Please upload a photo and fill in the details to add a new person."
  const ProcessingNotice := "Processing image..."
  const NotRecognizedDefault :=
    "Person not recognized. You can use the 'Add New Face' option to add them to your memory database."
  const RecognizeFailedNotice := "Sorry, there was an error processing your image. Please try again."

  /** The browser's description of a chosen file: its MIME type and its size in bytes. */
  datatype FileInfo = FileInfo(name: string, mimeType: string, size: nat)

  /** `"none" | "recognize" | "add"`: what the panel is doing. */
  datatype Mode = Idle | Recognizing | Adding

  /** A person the recognition service knows. An empty field stands for a missing one
      (both are falsy where the message is built). */
  datatype Person = Person(name: string, relation: string, lastSeen: string, notes: string)

  /** What `recognizeFace` came back with: a person with the confidence already turned into
      a whole percentage (`None` when it was missing or zero), an answer without a person
      (with the server's message, empty when there was none), or an exception. */
  datatype RecognizeReply =
    | Recognized(person: Person, confidencePercent: Option<nat>)
    | NotRecognized(message: string)
    | RecognizeThrown

  /** The "Add New Person" form. */
  datatype FaceForm = FaceForm(name: string, relation: string, notes: string)

  const EmptyFaceForm := FaceForm("", "", "")

  /** The fields of the `add-face` form-data POST; `notes` is only attached when non-empty. */
  datatype AddFaceRequest = AddFaceRequest(image: FileInfo, name: string, relation: string, notes: Option<string>)

  predicate IsImageType(mimeType: string) {
    StartsWith(mimeType, "image/")
  }

  /** The checks of `handleFileSelect`, in order: the type is checked first, so a non-image
      is refused for its type whatever its size; an image is refused only when it is larger
      than 5 MiB. */
  function FileError(f: FileInfo): (e: Option<string>)
    ensures e.None? <==> IsImageType(f.mimeType) && f.size <= MaxImageBytes
    ensures !IsImageType(f.mimeType) ==> e == Some(TypeError)
    ensures IsImageType(f.mimeType) && f.size > MaxImageBytes ==> e == Some(SizeError)
  {
    if !IsImageType(f.mimeType) then Some(TypeError)
    else if f.size > MaxImageBytes then Some(SizeError)
    else None
  }

  /** The boundary: an image of exactly 5 * 1024 * 1024 bytes passes, one byte more fails. */
  lemma SizeLimitBoundary(name: string, mimeType: string)
    requires IsImageType(mimeType)
    ensures FileError(FileInfo(name, mimeType, 5242880)).None?
    ensures FileError(FileInfo(name, mimeType, 5242881)) == Some(SizeError)
  {
  }

  /** A segment that is only added when its field is non-empty. */
  function Segment(lead: string, value: string): string {
    if value == "" then "" else lead + value
  }

  /** The confidence segment, when a non-zero confidence came back. */
  function ConfidenceSegment(percent: Option<nat>): string {
    match percent
    case None => ""
    case Some(p) => "\n\nConfidence: " + NatToString(p) + "%"
  }

  /** The text announced for a recognised person: "This is <name>", then the relation, the
      last-seen date, the notes and the confidence, in that order, each only when present. */
  function RecognitionText(p: Person, percent: Option<nat>): string {
    "This is " + p.name
      + Segment(", your ", p.relation)
      + Segment(".\nLast seen: ", p.lastSeen)
      + Segment(".\nNotes: ", p.notes)
      + ConfidenceSegment(percent)
  }

  /** Builds `resultMessage` in `handleRecognize` by appending one segment at a time. */
  method BuildRecognitionMessage(p: Person, percent: Option<nat>) returns (message: string)
    ensures message == RecognitionText(p, percent)
    ensures StartsWith(message, "This is " + p.name)
  {
    message := "This is " + p.name;
    ghost var expected := message;
    if p.relation != "" {
      message := message + (", your " + p.relation);
    }
    expected := expected + Segment(", your ", p.relation);
    assert message == expected;
    if p.lastSeen != "" {
      message := message + (".\nLast seen: " + p.lastSeen);
    }
    expected := expected + Segment(".\nLast seen: ", p.lastSeen);
    assert message == expected;
    if p.notes != "" {
      message := message + (".\nNotes: " + p.notes);
    }
    expected := expected + Segment(".\nNotes: ", p.notes);
    assert message == expected;
    if percent.Some? {
      message := message + ("\n\nConfidence: " + NatToString(percent.value) + "%");
    }
  }

  /** The message is exactly "This is <name>" when no other field is present, and longer
      as soon as one is: every optional segment shows up exactly when its field is set. */
  lemma BareRecognitionText(p: Person, percent: Option<nat>)
    ensures RecognitionText(p, percent) == "This is " + p.name <==>
      p.relation == "" && p.lastSeen == "" && p.notes == "" && percent.None?
  {
    var t := RecognitionText(p, percent);
    if p.relation != "" || p.lastSeen != "" || p.notes != "" || percent.Some? {
      assert |t| > |"This is " + p.name|;
    }
  }

  /** Different confidence percentages give different messages. */
  lemma ConfidenceShownExactly(p: Person, a: nat, b: nat)
    requires a != b
    ensures RecognitionText(p, Some(a)) != RecognitionText(p, Some(b))
  {
    var fields := "This is " + p.name + Segment(", your ", p.relation)
      + Segment(".\nLast seen: ", p.lastSeen) + Segment(".\nNotes: ", p.notes);
    var head := fields + "\n\nConfidence: ";
    forall n: nat ensures RecognitionText(p, Some(n)) == head + NatToString(n) + "%" {
      assert RecognitionText(p, Some(n)) == fields + ("\n\nConfidence: " + NatToString(n) + "%");
    }
    DecimalRoundTrip(a);
    DecimalRoundTrip(b);
    DifferentMiddles(head, NatToString(a), NatToString(b), "%");
  }

  lemma DifferentMiddles(head: string, x: string, y: string, tail: string)
    requires x != y
    ensures head + x + tail != head + y + tail
  {
    if |x| == |y| {
      assert (head + x + tail)[|head|..|head| + |x|] == x;
      assert (head + y + tail)[|head|..|head| + |y|] == y;
    }
  }

  /** The success notice of `handleAddFace`. */
  function AddedText(name: string, relation: string): string {
    "\U{2705} " + name + " has been successfully added to your memory database as your "
      + relation + "!"
  }

  /** The panel's state, one field per state variable of the component. The photo
      preview `selectedImage` is only ever cleared here: filling it is browser I/O. */
  class FaceRecognitionPanel {
    var selectedImage: Option<string>
    var selectedFile: Option<FileInfo>
    var isProcessing: bool
    var error: Option<string>
    var mode: Mode
    var showSavedFaces: bool
    var successMessage: Option<string>
    var newFace: FaceForm

    constructor ()
      ensures selectedImage.None? && selectedFile.None? && !isProcessing && error.None?
      ensures mode == Idle && !showSavedFaces && successMessage.None? && newFace == EmptyFaceForm
    {
      selectedImage := None;
      selectedFile := None;
      isProcessing := false;
      error := None;
      mode := Idle;
      showSavedFaces := false;
      successMessage := None;
      newFace := EmptyFaceForm;
    }

    /** `handleFileSelect`. No file changes nothing. A file failing a check sets that
        check's error and keeps the previous selection; a file passing both checks clears
        the error and becomes the selection. */
    method SelectFile(file: Option<FileInfo>)
      modifies this
      ensures selectedImage == old(selectedImage) && isProcessing == old(isProcessing)
      ensures mode == old(mode) && showSavedFaces == old(showSavedFaces)
      ensures successMessage == old(successMessage) && newFace == old(newFace)
      ensures file.None? ==> selectedFile == old(selectedFile) && error == old(error)
      ensures file.Some? && FileError(file.value).Some? ==>
        selectedFile == old(selectedFile) && error == FileError(file.value)
      ensures file.Some? && FileError(file.value).None? ==>
        selectedFile == file && error.None?
    {
      if file.Some? {
        if !IsImageType(file.value.mimeType) {
          error := Some(TypeError);
          return;
        }
        if file.value.size > MaxImageBytes {
          error := Some(SizeError);
          return;
        }
        error := None;
        selectedFile := file;
      }
    }

    /** `startRecognizeMode`: returns the prompt it announces. */
    method StartRecognizeMode() returns (notices: seq<string>)
      modifies this
      ensures mode == Recognizing && error.None? && successMessage.None?
      ensures selectedImage == old(selectedImage) && selectedFile == old(selectedFile)
      ensures isProcessing == old(isProcessing) && showSavedFaces == old(showSavedFaces)
      ensures newFace == old(newFace)
      ensures notices == [RecognizePrompt]
    {
      mode := Recognizing;
      error := None;
      successMessage := None;
      notices := [RecognizePrompt];
    }

    /** `startAddMode`: returns the prompt it announces. */
    method StartAddMode() returns (notices: seq<string>)
      modifies this
      ensures mode == Adding && error.None? && successMessage.None?
      ensures selectedImage == old(selectedImage) && selectedFile == old(selectedFile)
      ensures isProcessing == old(isProcessing) && showSavedFaces == old(showSavedFaces)
      ensures newFace == old(newFace)
      ensures notices == [AddPrompt]
    {
      mode := Adding;
      error := None;
      successMessage := None;
      notices := [AddPrompt];
    }

    /** `handleClear`: back to no mode, with no photo, no error and no success notice,
        whatever the state was; the form and the saved-faces toggle are kept. */
    method Clear() returns (notices: seq<string>)
      modifies this
      ensures selectedImage.None? && selectedFile.None? && error.None?
      ensures mode == Idle && successMessage.None?
      ensures isProcessing == old(isProcessing) && showSavedFaces == old(showSavedFaces)
      ensures newFace == old(newFace)
      ensures notices == [""]
    {
      selectedImage := None;
      selectedFile := None;
      error := None;
      mode := Idle;
      successMessage := None;
      notices := [""];
    }

    /** `handleRecognize`. Without a selected file it sets an error and sends nothing.
        Otherwise the file is sent; a recognised person is announced with
        `RecognitionText`, an answer without a person with the server's message or the
        default text, and an exception sets an error and announces the failure. */
    method Recognize(reply: RecognizeReply) returns (request: Option<FileInfo>, notices: seq<string>)
      modifies this
      ensures selectedImage == old(selectedImage) && selectedFile == old(selectedFile)
      ensures mode == old(mode) && showSavedFaces == old(showSavedFaces)
      ensures successMessage == old(successMessage) && newFace == old(newFace)
      ensures request == old(selectedFile)
      ensures request.None? ==>
        error == Some(NoImageError) && notices == [] && isProcessing == old(isProcessing)
      ensures request.Some? ==> !isProcessing && |notices| == 2 && notices[0] == ProcessingNotice
      ensures request.Some? ==> match reply
        case Recognized(p, c) => error.None? && notices[1] == RecognitionText(p, c)
        case NotRecognized(m) =>
          error.None? && notices[1] == (if m == "" then NotRecognizedDefault else m)
        case RecognizeThrown => error == Some(RecognizeError) && notices[1] == RecognizeFailedNotice
    {
      if selectedFile.None? {
        error := Some(NoImageError);
        return None, [];
      }
      request := selectedFile;
      isProcessing := true;
      error := None;
      notices := [ProcessingNotice];
      match reply {
        case Recognized(p, c) =>
          var message := BuildRecognitionMessage(p, c);
          notices := notices + [message];
        case NotRecognized(m) =>
          notices := notices + [if m == "" then NotRecognizedDefault else m];
        case RecognizeThrown =>
          error := Some(RecognizeError);
          notices := notices + [RecognizeFailedNotice];
      }
      isProcessing := false;
    }

    /** `handleAddFace`, as written. Without a file, a name or a relation it sets an error
        and sends nothing. Otherwise the form is posted; on success the form is emptied,
        `handleClear` runs and the saved faces are shown. Because `handleClear` runs after
        the success notice was stored, `successMessage` ends up empty again. A refusal
        shows the server's message (or a default), an exception a fixed error. */
    method AddFace(reply: Reply<()>) returns (request: Option<AddFaceRequest>, notices: seq<string>)
      modifies this
      ensures request.None? <==> old(selectedFile).None? || old(newFace).name == "" || old(newFace).relation == ""
      ensures request.None? ==>
        error == Some(MissingFieldsError) && notices == [] &&
        selectedImage == old(selectedImage) && selectedFile == old(selectedFile) &&
        isProcessing == old(isProcessing) && mode == old(mode) &&
        showSavedFaces == old(showSavedFaces) && successMessage == old(successMessage) &&
        newFace == old(newFace)
      ensures request.Some? ==>
        request.value == AddFaceRequest(old(selectedFile).value, old(newFace).name, old(newFace).relation,
                                        if old(newFace).notes == "" then None else Some(old(newFace).notes)) &&
        !isProcessing
      ensures request.Some? && reply.Ok? ==>
        newFace == EmptyFaceForm && mode == Idle && selectedFile.None? && selectedImage.None? &&
        error.None? && successMessage.None? && showSavedFaces &&
        notices == [AddedText(old(newFace).name, old(newFace).relation), ""]
      ensures request.Some? && !reply.Ok? ==>
        notices == [] && successMessage.None? &&
        selectedImage == old(selectedImage) && selectedFile == old(selectedFile) &&
        mode == old(mode) && showSavedFaces == old(showSavedFaces) && newFace == old(newFace) &&
        error == Some(match reply
                      case Rejected(m) => if m == "" then AddRejectedDefault else m
                      case _ => AddError)
    {
      if selectedFile.None? || newFace.name == "" || newFace.relation == "" {
        error := Some(MissingFieldsError);
        request, notices := None, [];
      } else {
        isProcessing := true;
        error := None;
        successMessage := None;
        request := Some(AddFaceRequest(selectedFile.value, newFace.name, newFace.relation,
                                       if newFace.notes == "" then None else Some(newFace.notes)));
        notices := [];
        match reply {
          case Ok(_) =>
            var text := AddedText(newFace.name, newFace.relation);
            successMessage := Some(text);
            notices := notices + [text];
            newFace := EmptyFaceForm;
            var cleared := Clear();
            notices := notices + cleared;
            showSavedFaces := true;
          case Rejected(m) =>
            error := Some(if m == "" then AddRejectedDefault else m);
          case Thrown =>
            error := Some(AddError);
        }
        isProcessing := false;
      }
    }

    /** `handleAddFace` as evidently intended: the same guard, request and reset, but the
        success notice is stored after `handleClear`, so the "added" banner is shown. */
    method AddFaceCorrected(reply: Reply<()>) returns (request: Option<AddFaceRequest>, notices: seq<string>)
      modifies this
      ensures request.None? <==> old(selectedFile).None? || old(newFace).name == "" || old(newFace).relation == ""
      ensures request.None? ==>
        error == Some(MissingFieldsError) && notices == [] &&
        selectedImage == old(selectedImage) && selectedFile == old(selectedFile) &&
        isProcessing == old(isProcessing) && mode == old(mode) &&
        showSavedFaces == old(showSavedFaces) && successMessage == old(successMessage) &&
        newFace == old(newFace)
      ensures request.Some? ==>
        request.value == AddFaceRequest(old(selectedFile).value, old(newFace).name, old(newFace).relation,
                                        if old(newFace).notes == "" then None else Some(old(newFace).notes)) &&
        !isProcessing
      ensures request.Some? && reply.Ok? ==>
        newFace == EmptyFaceForm && mode == Idle && selectedFile.None? && selectedImage.None? &&
        error.None? && showSavedFaces &&
        successMessage == Some(AddedText(old(newFace).name, old(newFace).relation)) &&
        notices == ["", AddedText(old(newFace).name, old(newFace).relation)]
      ensures request.Some? && !reply.Ok? ==>
        notices == [] && successMessage.None? &&
        selectedImage == old(selectedImage) && selectedFile == old(selectedFile) &&
        mode == old(mode) && showSavedFaces == old(showSavedFaces) && newFace == old(newFace) &&
        error == Some(match reply
                      case Rejected(m) => if m == "" then AddRejectedDefault else m
                      case _ => AddError)
    {
      if selectedFile.None? || newFace.name == "" || newFace.relation == "" {
        error := Some(MissingFieldsError);
        request, notices := None, [];
      } else {
        isProcessing := true;
        error := None;
        successMessage := None;
        request := Some(AddFaceRequest(selectedFile.value, newFace.name, newFace.relation,
                                       if newFace.notes == "" then None else Some(newFace.notes)));
        notices := [];
        match reply {
          case Ok(_) =>
            var text := AddedText(newFace.name, newFace.relation);
            newFace := EmptyFaceForm;
            notices := Clear();
            successMessage := Some(text);
            notices := notices + [text];
            showSavedFaces := true;
          case Rejected(m) =>
            error := Some(if m == "" then AddRejectedDefault else m);
          case Thrown =>
            error := Some(AddError);
        }
        isProcessing := false;
      }
    }
  }
}
