/**
 * The multer configuration the assessment routes use: a GridFS storage engine writing to
 * the "uploads" bucket, a 20 MiB size limit and a PDF-only filter.
 */
module GridfsConfig {
  import opened Wrappers
  import opened NodeRuntime
  import opened UploadTypes

  const BucketName: string := "uploads"
  const PdfMimeType: string := "application/pdf"
  const RejectMessage: string := "Only PDF files are allowed"

  /** `limits.fileSize`: 20 MiB. */
  const MaxFileSize: nat := 20 * 1024 * 1024

  datatype Metadata = Metadata(originalName: string, contentType: string)
  datatype FileInfo = FileInfo(filename: string, bucketName: string, metadata: Metadata)

  /** The `fileFilter`: only the PDF MIME type is accepted. */
  function FileFilter(mimetype: string): (d: FilterDecision)
    ensures d.Accept? <==> mimetype == PdfMimeType
    ensures d.Reject? ==> d.message == RejectMessage
  {
    if mimetype != PdfMimeType then Reject(RejectMessage) else Accept
  }

  /** The storage engine's `file` builder; `random` is None when `crypto.randomBytes` fails. */
  function BuildFileInfo(random: Option<RandomBytes>, file: IncomingFile): (r: Result<FileInfo, UploadError>)
    ensures random.None? ==> r == Failure(RandomBytesFailed)
    ensures random.Some? ==> (r.Success? && |r.value.filename| == 32 + |ExtName(file.originalname)|
      && HexDecode(r.value.filename[..32]) == Some(random.value)
      && r.value.filename[32..] == ExtName(file.originalname)
      && r.value.bucketName == BucketName
      && r.value.metadata.originalName == file.originalname
      && r.value.metadata.contentType == file.mimetype)
  {
    match random
    case None => Failure(RandomBytesFailed)
    case Some(bytes) =>
      Success(FileInfo(StoredFilename(bytes, file.originalname), BucketName,
                       Metadata(file.originalname, file.mimetype)))
  }

  /** One file through `upload.single(...)`: what ends up in GridFS, or why nothing does. */
  function Upload(random: Option<RandomBytes>, file: IncomingFile): (r: Result<FileInfo, UploadError>)
    ensures r.Success? <==> file.mimetype == PdfMimeType && random.Some? && file.size <= MaxFileSize
    ensures r.Success? ==> r.value == BuildFileInfo(random, file).value
    ensures file.mimetype == PdfMimeType && random.None? ==> r == Failure(RandomBytesFailed)
    ensures file.mimetype == PdfMimeType && random.Some? && file.size > MaxFileSize ==> r == Failure(FileTooLarge)
  {
    RunUpload(FileFilter(file.mimetype), BuildFileInfo(random, file), file.size, MaxFileSize)
  }

  /** An upload is stored exactly when it is a PDF, the random bytes arrived and it fits the limit. */
  lemma UploadAccepts(random: Option<RandomBytes>, file: IncomingFile)
    ensures Upload(random, file).Success?
      <==> file.mimetype == PdfMimeType && random.Some? && file.size <= 20971520
    ensures file.mimetype != PdfMimeType ==> Upload(random, file) == Failure(FilterRejected(RejectMessage))
    ensures Upload(random, file).Success? ==>
      var info := Upload(random, file).value;
      info.metadata == Metadata(file.originalname, PdfMimeType)
      && |info.filename| == 32 + |ExtName(file.originalname)|
  {
  }
}
