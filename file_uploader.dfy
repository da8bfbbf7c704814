/** The upload form (frontend/components/knowledge/FileUploader.tsx): it
    accepts a file by MIME type, proposes a title from the file name and,
    on submit, builds the `upload_file` call with a timestamped file name.
    The React state (`file`, `title`) is an `Uploader` object; the actor's
    presence, the clock and the canister's reply are parameters. */
module FileUploader {
  import opened Base
  import opened VdbError
  import opened JsText

  const ACCEPTED_FILE_TYPES: seq<string> := [
    "application/pdf",
    "text/plain",
    "application/msword",
    "application/vnd.openxmlformats-officedocument.wordprocessingml.document",
    "image/jpeg",
    "image/png",
    "image/gif"
  ]

  const MIME_TYPE_MAP: map<string, string> := map[
    "application/pdf" := "pdf",
    "text/plain" := "txt",
    "application/msword" := "doc",
    "application/vnd.openxmlformats-officedocument.wordprocessingml.document" := "docx",
    "image/jpeg" := "jpg",
    "image/png" := "png",
    "image/gif" := "gif"
  ]

  const UNSUPPORTED_MESSAGE := "File type not supported. Please upload PDF, TXT, DOC, DOCX, or images."

  /** `MIME_TYPE_MAP[type] || 'unknown'`. */
  function Extension(mimeType: string): string
  {
    if mimeType in MIME_TYPE_MAP then MIME_TYPE_MAP[mimeType] else "unknown"
  }

  /** The accepted types are exactly the mapped ones, and each gets a real,
      dot-free extension; anything else gets "unknown". */
  lemma ExtensionOfAccepted(mimeType: string)
    ensures mimeType in ACCEPTED_FILE_TYPES <==> mimeType in MIME_TYPE_MAP
    ensures mimeType in ACCEPTED_FILE_TYPES ==>
      Extension(mimeType) != "unknown" && Extension(mimeType) != "" && '.' !in Extension(mimeType)
    ensures mimeType !in ACCEPTED_FILE_TYPES ==> Extension(mimeType) == "unknown"
  {
  }

  datatype File = File(name: string, mimeType: string, content: seq<byte>)

  /** The title proposed for a new file: `nameWithoutExt || name`. */
  function DefaultTitle(name: string): string
  {
    var stem := Stem(name);
    if stem != "" then stem else name
  }

  /** The proposed title is the name without its last extension; a name
      without a dot, or whose only dot leads it (".env"), is kept whole. */
  lemma DefaultTitleDropsExtension(name: string)
    ensures '.' in name && Stem(name) != "" ==>
      name == DefaultTitle(name) + "." + LastPiece(name) && '.' !in LastPiece(name)
    ensures '.' !in name || Stem(name) == "" ==> DefaultTitle(name) == name
  {
    StemAndLast(name);
  }

  /** `name.split('.')[0]`: the text before the first dot. */
  function BaseName(name: string): string
  {
    Split(name)[0]
  }

  lemma BaseNameIsPrefix(name: string)
    ensures '.' !in BaseName(name)
    ensures BaseName(name) == name || name[..|BaseName(name)| + 1] == BaseName(name) + "."
  {
    JoinSplit(name);
    var parts := Split(name);
    if |parts| > 1 {
      assert name == parts[0] + "." + Join(parts[1..]);
      assert name[..|parts[0]| + 1] == parts[0] + ".";
    }
  }

  /** `${name.split('.')[0]}_${timestamp}.${fileType}`. */
  function UniqueFilename(name: string, timestamp: nat, ext: string): string
  {
    BaseName(name) + "_" + Decimal(timestamp) + "." + ext
  }

  lemma DecimalHasNoDot(n: nat)
    ensures '.' !in Decimal(n)
  {
  }

  /** The generated name splits into the timestamped base and the extension,
      so the form would propose the timestamped base as its title. */
  lemma UniqueFilenameParts(name: string, timestamp: nat, ext: string)
    requires '.' !in ext
    ensures Split(UniqueFilename(name, timestamp, ext)) == [BaseName(name) + "_" + Decimal(timestamp), ext]
    ensures DefaultTitle(UniqueFilename(name, timestamp, ext)) == BaseName(name) + "_" + Decimal(timestamp)
  {
    var stem := BaseName(name) + "_" + Decimal(timestamp);
    DecimalHasNoDot(timestamp);
    assert '.' !in stem;
    SplitJoin([stem, ext]);
    assert Join([stem, ext]) == UniqueFilename(name, timestamp, ext);
    var parts := [stem, ext];
    assert parts[..1] == [stem];
  }

  /** Two different clock readings give two different file names. */
  lemma UniqueFilenameInjective(name: string, t1: nat, t2: nat, ext: string)
    requires '.' !in ext && t1 != t2
    ensures UniqueFilename(name, t1, ext) != UniqueFilename(name, t2, ext)
  {
    if UniqueFilename(name, t1, ext) == UniqueFilename(name, t2, ext) {
      UniqueFilenameParts(name, t1, ext);
      UniqueFilenameParts(name, t2, ext);
      var prefix := BaseName(name) + "_";
      var s1, s2 := prefix + Decimal(t1), prefix + Decimal(t2);
      assert s1 == s2;
      assert Decimal(t1) == s1[|prefix|..] == s2[|prefix|..] == Decimal(t2);
      DecimalInjective(t1, t2);
    }
  }

  /** An `upload_file` call, with the arguments named after the canister's
      parameters in the canister's order. */
  datatype UploadCall = UploadCall(fileType: string, title: string, filename: string, data: seq<byte>)

  /** The call `handleSubmit` makes. The form passes its title first and the
      extension second, so they arrive as the canister's `file_type` and
      `title` respectively. */
  function SubmitCall(file: File, title: string, timestamp: nat): UploadCall
  {
    var ext := Extension(file.mimeType);
    UploadCall(if title != "" then title else file.name, ext, UniqueFilename(file.name, timestamp, ext), file.content)
  }

  /** What the call carries for an accepted file: the entered title (or the
      file name) in the first argument, the extension in the second, a file
      name ending in that extension, and the file's bytes. */
  lemma SubmitCallSpec(file: File, title: string, timestamp: nat)
    requires file.mimeType in ACCEPTED_FILE_TYPES
    ensures var call := SubmitCall(file, title, timestamp);
      && (title != "" ==> call.fileType == title)
      && (title == "" ==> call.fileType == file.name)
      && call.title == MIME_TYPE_MAP[file.mimeType]
      && LastPiece(call.filename) == call.title
      && call.data == file.content
  {
    ExtensionOfAccepted(file.mimeType);
    UniqueFilenameParts(file.name, timestamp, Extension(file.mimeType));
  }

  /** What the form tells its parent after a submit. */
  datatype Notice = UploadSucceeded | UploadFailed(message: string)

  /** `String(new Error(JSON.stringify(result.Err)))`. */
  function ErrorText(e: Error): string
  {
    "Error: {\"" + VariantName(e) + "\":null}"
  }

  /** How a submit went, as the form sees it: reading the file threw, the
      call was rejected by the agent (a trap, an oversized message, the
      network), or the canister replied. `text` is `String(error)`. */
  datatype SubmitOutcome =
    | ReadFailed(text: string)
    | CallRejected(text: string)
    | Replied(result: Result<string, Error>)

  class Uploader {
    var file: Option<File>
    var title: string

    /** Only an accepted file is ever selected. */
    ghost predicate Valid()
      reads this
    {
      file.Some? ==> file.value.mimeType in ACCEPTED_FILE_TYPES
    }

    constructor ()
      ensures Valid() && file == None && title == ""
    {
      file, title := None, "";
    }

    /** `handleFileChange`: nothing happens without a file; a file of another
        type is refused with the error message and the form is unchanged;
        otherwise the file is selected and the title proposed from its name. */
    method HandleFileChange(selected: Option<File>) returns (error: Option<string>)
      requires Valid()
      modifies this
      ensures Valid()
      ensures selected.Some? && selected.value.mimeType !in ACCEPTED_FILE_TYPES ==> error == Some(UNSUPPORTED_MESSAGE)
      ensures selected.Some? && selected.value.mimeType in ACCEPTED_FILE_TYPES ==>
        error == None && file == selected && title == DefaultTitle(selected.value.name)
      ensures selected.None? || selected.value.mimeType !in ACCEPTED_FILE_TYPES ==>
        file == old(file) && title == old(title)
      ensures selected.None? ==> error == None
    {
      if selected.None? {
        return None;
      }
      var f := selected.value;
      if f.mimeType !in ACCEPTED_FILE_TYPES {
        return Some(UNSUPPORTED_MESSAGE);
      }
      file := selected;
      title := DefaultTitle(f.name);
      error := None;
    }

    /** The title input's `onChange`. */
    method SetTitle(t: string)
      requires Valid()
      modifies this
      ensures Valid() && file == old(file) && title == t
    {
      title := t;
    }

    /** The Cancel button. */
    method Cancel()
      modifies this
      ensures Valid() && file == None && title == ""
    {
      file, title := None, "";
    }

    /** `handleSubmit`: without a file or an actor nothing is sent and nothing
        changes. Otherwise the file is read and the call made; on a success
        reply the form is cleared. Whatever fails (reading the file, the call
        being rejected, or an error reply) reaches the parent as the error's
        text and the form keeps its contents. */
    method HandleSubmit(hasActor: bool, timestamp: nat, outcome: SubmitOutcome)
      returns (call: Option<UploadCall>, notice: Option<Notice>)
      requires Valid()
      modifies this
      ensures Valid()
      ensures old(file).None? || !hasActor ==>
        call == None && notice == None && file == old(file) && title == old(title)
      ensures old(file).Some? && hasActor ==>
        && call == (if outcome.ReadFailed? then None else Some(SubmitCall(old(file).value, old(title), timestamp)))
        && (outcome.Replied? && outcome.result.Ok? ==> notice == Some(UploadSucceeded) && file == None && title == "")
        && (outcome.Replied? && outcome.result.Err? ==>
             notice == Some(UploadFailed(ErrorText(outcome.result.error))) && file == old(file) && title == old(title))
        && (outcome.ReadFailed? || outcome.CallRejected? ==>
             notice == Some(UploadFailed(outcome.text)) && file == old(file) && title == old(title))
    {
      if file.None? || !hasActor {
        return None, None;
      }
      var f := file.value;
      if outcome.ReadFailed? {
        return None, Some(UploadFailed(outcome.text));
      }
      var ext := Extension(f.mimeType);
      var uniqueFilename := UniqueFilename(f.name, timestamp, ext);
      call := Some(UploadCall(if title != "" then title else f.name, ext, uniqueFilename, f.content));
      if outcome.CallRejected? {
        return call, Some(UploadFailed(outcome.text));
      }
      if outcome.result.Err? {
        return call, Some(UploadFailed(ErrorText(outcome.result.error)));
      }
      file, title := None, "";
      notice := Some(UploadSucceeded);
    }
  }
}
