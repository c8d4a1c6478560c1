/** Streaming an upload: one pass that hashes, measures, spools and identifies, whatever the chunks. */
module UploadInspection {
  import opened Basics
  import opened TextSniff
  import Filenames
  import LikeSearch

  datatype Refusal =
    | BadName(error: Filenames.NameError)
    | TooLarge | Empty | Unrecognised | ExtensionMismatch | NotADocx | DeclaredMismatch

  datatype Inspected = Inspected(content: Bytes, sha256: string, size: nat, mime: Mime, safeName: string, extension: string)

  /** The allow-list, extension by extension. */
  function ExpectedMime(extension: string): Mime {
    match extension
    case ".pdf" => Pdf
    case ".png" => Png
    case ".jpg" => Jpeg
    case ".jpeg" => Jpeg
    case ".tif" => Tiff
    case ".tiff" => Tiff
    case ".docx" => Ooxml
    case ".doc" => Msword
    case _ => PlainText
  }

  function MimeName(mime: Mime): string {
    match mime
    case Pdf => "application/pdf"
    case Png => "image/png"
    case Jpeg => "image/jpeg"
    case Tiff => "image/tiff"
    case Msword => "application/msword"
    case Ooxml => "application/vnd.openxmlformats-officedocument.wordprocessingml.document"
    case PlainText => "text/plain"
  }

  /** `ALLOWED_UPLOAD_TYPES`. */
  function PermittedExtensions(mime: Mime): set<string> {
    match mime
    case Pdf => {".pdf"}
    case Png => {".png"}
    case Jpeg => {".jpg", ".jpeg"}
    case Tiff => {".tif", ".tiff"}
    case PlainText => {".txt"}
    case Ooxml => {".docx"}
    case Msword => {".doc"}
  }

  /** Turned round, the allow-list gives every permitted extension one type. */
  lemma ExtensionToMime(extension: string, mime: Mime)
    ensures extension in PermittedExtensions(mime) <==> extension in Filenames.ALLOWED && ExpectedMime(extension) == mime
  {
  }

  function BeforeSemicolon(s: string): string {
    if s == "" || s[0] == ';' then "" else [s[0]] + BeforeSemicolon(s[1..])
  }

  /** A declared content type may be absent, empty, right or non-committal. */
  predicate DeclaredAgrees(declared: string, expected: Mime) {
    var d := Filenames.Lower(LikeSearch.Strip(BeforeSemicolon(declared)));
    d == "" || d == MimeName(expected) || d == "application/octet-stream"
  }

  lemma {:induction false} BeforeSemicolonIs(s: string, rest: string)
    requires ';' !in s && (rest == "" || rest[0] == ';')
    ensures BeforeSemicolon(s + rest) == s
  {
    if s == "" {
      assert s + rest == rest;
    } else {
      assert (s + rest)[1..] == s[1..] + rest;
      BeforeSemicolonIs(s[1..], rest);
    }
  }

  /** The registered media type of a permitted extension. */
  lemma MediaTypes()
    ensures MimeName(ExpectedMime(".pdf")) == "application/pdf"
    ensures MimeName(ExpectedMime(".png")) == "image/png"
    ensures MimeName(ExpectedMime(".jpg")) == MimeName(ExpectedMime(".jpeg")) == "image/jpeg"
    ensures MimeName(ExpectedMime(".tif")) == MimeName(ExpectedMime(".tiff")) == "image/tiff"
    ensures MimeName(ExpectedMime(".txt")) == "text/plain"
    ensures MimeName(ExpectedMime(".docx")) == "application/vnd.openxmlformats-officedocument.wordprocessingml.document"
    ensures MimeName(ExpectedMime(".doc")) == "application/msword"
  {
  }

  /**
   * Of a declared type only what comes before the first semicolon counts, without the white space around it:
   * nothing at all is accepted, the type the extension stands for, or the catch-all of RFC 2046 section 4.5.1,
   * each in any mixture of capitals.
   */
  lemma DeclaredIff(before: string, media: string, after: string, parameters: string, expected: Mime)
    requires LikeSearch.AllSpace(before) && LikeSearch.AllSpace(after) && LikeSearch.Trimmed(media) && ';' !in media
    requires parameters == "" || parameters[0] == ';'
    ensures DeclaredAgrees(before + media + after + parameters, expected)
       <==> media == "" || Filenames.Lower(media) in {MimeName(expected), "application/octet-stream"}
  {
    BeforeSemicolonIs(before + media + after, parameters);
    LikeSearch.StripIs(before, media, after);
  }

  /** What comes before the first empty read: everything, when no read is empty. */
  function Received(chunks: seq<Bytes>): (r: seq<Bytes>)
    ensures r <= chunks && ((forall k :: 0 <= k < |chunks| ==> chunks[k] != []) ==> r == chunks)
  {
    if chunks == [] || chunks[0] == [] then [] else [chunks[0]] + Received(chunks[1..])
  }

  lemma {:induction false} ReceivedUpTo(chunks: seq<Bytes>, i: nat)
    requires i <= |chunks| && (forall k :: 0 <= k < i ==> chunks[k] != []) && (i < |chunks| ==> chunks[i] == [])
    ensures Received(chunks) == chunks[..i]
  {
    if i > 0 {
      ReceivedUpTo(chunks[1..], i - 1);
      assert chunks[..i] == [chunks[0]] + chunks[1..][..i - 1];
    }
  }

  class UploadInspector {
    const sha: Bytes -> string
    /** Whether the archive library finds the two parts of a Word document in these bytes. */
    const docxLayout: Bytes -> bool

    constructor (sha: Bytes -> string, docxLayout: Bytes -> bool)
      ensures this.sha == sha && this.docxLayout == docxLayout
    {
      this.sha, this.docxLayout := sha, docxLayout;
    }

    /** The verdict on the whole byte string. */
    function Verdict(whole: Bytes, maxBytes: nat, safeName: string, extension: string, declared: string): Result<Inspected, Refusal> {
      var expected := ExpectedMime(extension);
      var detected := SniffMime(Head(whole), extension);
      if |whole| > maxBytes then Err(TooLarge)
      else if whole == [] then Err(Empty)
      else if detected == None then Err(Unrecognised)
      else if detected != Some(expected) then Err(ExtensionMismatch)
      else if extension == ".docx" && !docxLayout(whole) then Err(NotADocx)
      else if !DeclaredAgrees(declared, expected) then Err(DeclaredMismatch)
      else Ok(Inspected(whole, sha(whole), |whole|, expected, safeName, extension))
    }

    function Outcome(whole: Bytes, maxBytes: nat, filename: string, declared: string): Result<Inspected, Refusal> {
      match Filenames.ValidateFilename(filename)
      case Err(e) => Err(BadName(e))
      case Ok((safeName, extension)) => Verdict(whole, maxBytes, safeName, extension, declared)
    }

    /** What an acceptable upload shows, apart from its name and size. */
    ghost predicate LooksRight(whole: Bytes, extension: string, declared: string) {
      && SniffMime(Head(whole), extension) == Some(ExpectedMime(extension))
      && (extension == ".docx" ==> docxLayout(whole))
      && DeclaredAgrees(declared, ExpectedMime(extension))
    }

    /** An allowed name, a size within bounds, and the right looks. */
    ghost predicate Acceptable(whole: Bytes, maxBytes: nat, filename: string, declared: string) {
      && Filenames.ValidateFilename(filename).Ok?
      && 0 < |whole| <= maxBytes
      && LooksRight(whole, Filenames.ValidateFilename(filename).value.1, declared)
    }

    /** Each refusal has one reason, the first that applies, and an accepted upload is recorded as it is. */
    ghost predicate Answers(whole: Bytes, maxBytes: nat, filename: string, declared: string, r: Result<Inspected, Refusal>) {
      match Filenames.ValidateFilename(filename)
      case Err(error) => r == Err(BadName(error))
      case Ok((safeName, extension)) =>
        var sized := 0 < |whole| <= maxBytes;
        var found := SniffMime(Head(whole), extension);
        var right := found.Some? && extension in PermittedExtensions(found.value);
        var readable := extension == ".docx" ==> docxLayout(whole);
        && (r == Err(TooLarge) <==> |whole| > maxBytes)
        && (r == Err(Empty) <==> |whole| == 0)
        && (r == Err(Unrecognised) <==> sized && found.None?)
        && (r == Err(ExtensionMismatch) <==> sized && found.Some? && !right)
        && (r == Err(NotADocx) <==> sized && right && !readable)
        && (r == Err(DeclaredMismatch) <==> sized && right && readable && !DeclaredAgrees(declared, found.value))
        && (r.Ok? <==> sized && right && readable && DeclaredAgrees(declared, found.value))
        && (r.Ok? ==> r.value == Inspected(whole, sha(whole), |whole|, found.value, safeName, extension))
    }

    /** The reading loop: nothing beyond the limit is ever spooled. */
    method Receive(chunks: seq<Bytes>, maxBytes: nat) returns (fits: bool, spool: Bytes, digested: Bytes, head: Bytes)
      ensures fits <==> |Concat(Received(chunks))| <= maxBytes
      ensures fits ==> spool == digested == Concat(Received(chunks)) && head == Head(spool)
      ensures |spool| <= maxBytes
    {
      var total, i := 0, 0;
      head, digested, spool := [], [], [];
      while i < |chunks| && chunks[i] != []
        invariant 0 <= i <= |chunks|
        invariant forall k :: 0 <= k < i ==> chunks[k] != []
        invariant digested == spool == Concat(chunks[..i])
        invariant total == |spool| <= maxBytes
        invariant head == Head(spool)
      {
        var chunk := chunks[i];
        assert chunks[..i + 1] == chunks[..i] + [chunk];
        ConcatAppend(chunks[..i], chunk);
        total := total + |chunk|;
        if total > maxBytes {
          TooMuch(chunks, i, maxBytes);
          fits := false;
          return;
        }
        if |head| < SNIFF_BYTES {
          var room := SNIFF_BYTES - |head|;
          head := head + if |chunk| <= room then chunk else chunk[..room];
        }
        digested := digested + chunk;
        spool := spool + chunk;
        i := i + 1;
      }
      ReceivedUpTo(chunks, i);
      fits := true;
    }

    /**
     * However the bytes are cut into reads, the outcome is that of the whole string, and the spool never holds
     * more than the limit: `held` is what it held when the reading ended.
     */
    method InspectUpload(chunks: seq<Bytes>, maxBytes: nat, filename: string, declared: string)
      returns (r: Result<Inspected, Refusal>, held: nat)
      ensures r == Outcome(Concat(Received(chunks)), maxBytes, filename, declared)
      ensures r.Ok? <==> Acceptable(Concat(Received(chunks)), maxBytes, filename, declared)
      ensures Answers(Concat(Received(chunks)), maxBytes, filename, declared, r)
      ensures r.Ok? ==> && r.value.content == Concat(Received(chunks)) && r.value.sha256 == sha(r.value.content)
                        && r.value.size == |r.value.content|
      ensures held <= maxBytes && (r.Ok? ==> held == r.value.size)
    {
      AcceptedIff(this, Concat(Received(chunks)), maxBytes, filename, declared);
      AnswersIsOutcome(this, Concat(Received(chunks)), maxBytes, filename, declared);
      var named := Filenames.ValidateFilename(filename);
      if named.Err? {
        return Err(BadName(named.error)), 0;
      }
      var (safeName, extension) := named.value;
      var fits, spool, digested, head := Receive(chunks, maxBytes);
      held := |spool|;
      if !fits {
        return Err(TooLarge), held;
      }
      if |spool| == 0 {
        return Err(Empty), held;
      }
      var expected, detected := ExpectedMime(extension), SniffMime(head, extension);
      if detected == None {
        return Err(Unrecognised), held;
      }
      if detected != Some(expected) {
        return Err(ExtensionMismatch), held;
      }
      if extension == ".docx" && !docxLayout(spool) {
        return Err(NotADocx), held;
      }
      if !DeclaredAgrees(declared, expected) {
        return Err(DeclaredMismatch), held;
      }
      r := Ok(Inspected(spool, sha(digested), |spool|, expected, safeName, extension));
    }
  }

  /** Reading on only adds bytes. */
  lemma {:induction false} TooMuch(chunks: seq<Bytes>, i: nat, maxBytes: nat)
    requires i < |chunks| && (forall k :: 0 <= k <= i ==> chunks[k] != [])
    requires |Concat(chunks[..i])| + |chunks[i]| > maxBytes
    ensures |Concat(Received(chunks))| > maxBytes
  {
    PrefixReceived(chunks, i + 1);
    assert chunks[..i + 1] == chunks[..i] + [chunks[i]];
    ConcatAppend(chunks[..i], chunks[i]);
  }

  lemma {:induction false} PrefixReceived(chunks: seq<Bytes>, i: nat)
    requires i <= |chunks| && (forall k :: 0 <= k < i ==> chunks[k] != [])
    ensures |Concat(Received(chunks))| >= |Concat(chunks[..i])|
  {
    if i > 0 {
      PrefixReceived(chunks[1..], i - 1);
      ConcatFront(chunks[0], Received(chunks[1..]));
      assert chunks[..i] == [chunks[0]] + chunks[1..][..i - 1];
      ConcatFront(chunks[0], chunks[1..][..i - 1]);
    }
  }

  /** Accepted uploads are the acceptable ones; what is recorded is of the bytes received, under a clean name. */
  lemma AcceptedIff(inspector: UploadInspector, whole: Bytes, maxBytes: nat, filename: string, declared: string)
    ensures inspector.Outcome(whole, maxBytes, filename, declared).Ok?
       <==> inspector.Acceptable(whole, maxBytes, filename, declared)
    ensures match inspector.Outcome(whole, maxBytes, filename, declared)
            case Err(_) => true
            case Ok(r) => r.content == whole && r.sha256 == inspector.sha(whole) && r.size == |whole|
                          && Filenames.Clean(r.safeName) && r.extension in Filenames.ALLOWED
  {
    if Filenames.ValidateFilename(filename).Ok? {
      Filenames.AcceptedNames(filename);
    }
  }

  lemma AnswersIsOutcome(inspector: UploadInspector, whole: Bytes, maxBytes: nat, filename: string, declared: string)
    ensures inspector.Answers(whole, maxBytes, filename, declared, inspector.Outcome(whole, maxBytes, filename, declared))
  {
    if Filenames.ValidateFilename(filename).Ok? {
      var extension := Filenames.ValidateFilename(filename).value.1;
      Filenames.AcceptedNames(filename);
      forall mime ensures extension in PermittedExtensions(mime) <==> ExpectedMime(extension) == mime {
        ExtensionToMime(extension, mime);
      }
    }
  }

  /**
   * A well-formed text file without binary signature is accepted exactly when it is neither empty nor oversize
   * and fits the sniff window, or the window ends at a character boundary, or does four bytes earlier.
   */
  lemma TextFileAcceptedIff(inspector: UploadInspector, chars: seq<Bytes>, maxBytes: nat, filename: string, declared: string)
    requires Characters(chars) && 0 !in Concat(chars) && Signature(Head(Concat(chars))) == None
    requires Filenames.ValidateFilename(filename).Ok? && Filenames.ValidateFilename(filename).value.1 == ".txt"
    requires DeclaredAgrees(declared, PlainText)
    ensures inspector.Outcome(Concat(chars), maxBytes, filename, declared).Ok?
       <==> 0 < |Concat(chars)| <= maxBytes
            && (|Concat(chars)| <= SNIFF_BYTES || Boundary(chars, SNIFF_BYTES) || Boundary(chars, SNIFF_BYTES - 4))
  {
    HeadAccepted(chars);
    var safeName := Filenames.ValidateFilename(filename).value.0;
    SniffedAsText(inspector, Concat(chars), maxBytes, safeName, declared, IsProbablyText(Head(Concat(chars))));
  }

  lemma SniffedAsText(inspector: UploadInspector, whole: Bytes, maxBytes: nat, safeName: string, declared: string, textual: bool)
    requires SniffMime(Head(whole), ".txt") == if textual then Some(PlainText) else None
    requires DeclaredAgrees(declared, PlainText)
    ensures inspector.Verdict(whole, maxBytes, safeName, ".txt", declared).Ok? <==> 0 < |whole| <= maxBytes && textual
  {
    assert ExpectedMime(".txt") == PlainText;
  }

  /** A long text file written in three-byte characters is refused, though it is valid UTF-8. */
  lemma ThreeByteTextFileRefused(inspector: UploadInspector, chars: seq<Bytes>, maxBytes: nat, filename: string, declared: string)
    requires Characters(chars) && Width(chars, 3) && SNIFF_BYTES <= |Concat(chars)| <= maxBytes
    requires Filenames.ValidateFilename(filename).Ok? && Filenames.ValidateFilename(filename).value.1 == ".txt"
    ensures inspector.Outcome(Concat(chars), maxBytes, filename, declared) == Err(Unrecognised)
  {
    ThreeByteTextRefused(chars);
  }
}
