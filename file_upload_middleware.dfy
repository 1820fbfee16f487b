/**
 * The second multer configuration: a GridFS storage engine whose file metadata also records
 * the upload time and, when the request names one, the owning assessment; a 20 MiB limit;
 * and a filter accepting PDF, Word and common image types. Its `ensureGridFSReady` guard is
 * not part of this model.
 */
module FileUploadMiddleware {
  import opened Wrappers
  import opened NodeRuntime
  import opened UploadTypes
  import GridfsConfig

  const BucketName: string := "uploads"
  const MaxFileSize: nat := 20 * 1024 * 1024
  const RejectMessage: string := "Only PDF, document files, and common image formats are allowed"

  const AllowedMimeTypes: seq<string> := [
    "application/pdf",
    "application/msword",
    "application/vnd.openxmlformats-officedocument.wordprocessingml.document",
    "image/jpeg",
    "image/png",
    "image/gif"
  ]

  datatype Metadata = Metadata(originalName: string, contentType: string, uploadDate: string,
                               assessmentId: Option<string>)
  datatype FileInfo = FileInfo(filename: string, bucketName: string, metadata: Metadata)

  /** The `fileFilter`: the MIME type must be on the allow-list. */
  function FileFilter(mimetype: string): (d: FilterDecision)
    ensures d.Accept? <==> mimetype in AllowedMimeTypes
    ensures d.Reject? ==> d.message == RejectMessage
  {
    if mimetype !in AllowedMimeTypes then Reject(RejectMessage) else Accept
  }

  /**
   * The storage engine's `file` builder. `bodyAssessmentId` is `req.body.assessmentId`
   * (None when there is no body or no such field); `now` is `new Date()`.
   */
  function BuildFileInfo(random: Option<RandomBytes>, file: IncomingFile,
                         bodyAssessmentId: Option<string>, now: string): (r: Result<FileInfo, UploadError>)
    ensures random.None? ==> r == Failure(RandomBytesFailed)
    ensures random.Some? ==> (r.Success? && |r.value.filename| == 32 + |ExtName(file.originalname)|
      && HexDecode(r.value.filename[..32]) == Some(random.value)
      && r.value.filename[32..] == ExtName(file.originalname)
      && r.value.bucketName == BucketName
      && r.value.metadata.originalName == file.originalname
      && r.value.metadata.contentType == file.mimetype
      && r.value.metadata.uploadDate == now)
    ensures r.Success? ==>
      (r.value.metadata.assessmentId.Some? <==> bodyAssessmentId.Some? && bodyAssessmentId.value != "")
    ensures r.Success? && r.value.metadata.assessmentId.Some? ==> r.value.metadata.assessmentId == bodyAssessmentId
  {
    match random
    case None => Failure(RandomBytesFailed)
    case Some(bytes) =>
      // `...(req.body && req.body.assessmentId && { assessmentId })` adds the key only for a truthy id
      var owner := if bodyAssessmentId.Some? && bodyAssessmentId.value != "" then bodyAssessmentId else None;
      Success(FileInfo(StoredFilename(bytes, file.originalname), BucketName,
                       Metadata(file.originalname, file.mimetype, now, owner)))
  }

  function Upload(random: Option<RandomBytes>, file: IncomingFile, bodyAssessmentId: Option<string>,
                  now: string): (r: Result<FileInfo, UploadError>)
    ensures r.Success? <==> file.mimetype in AllowedMimeTypes && random.Some? && file.size <= MaxFileSize
    ensures r.Success? ==> r.value == BuildFileInfo(random, file, bodyAssessmentId, now).value
    ensures file.mimetype in AllowedMimeTypes && random.None? ==> r == Failure(RandomBytesFailed)
    ensures file.mimetype in AllowedMimeTypes && random.Some? && file.size > MaxFileSize ==> r == Failure(FileTooLarge)
  {
    RunUpload(FileFilter(file.mimetype), BuildFileInfo(random, file, bodyAssessmentId, now),
              file.size, MaxFileSize)
  }

  /** A file is stored exactly when its type is allowed, the random bytes arrived and it fits. */
  lemma UploadAccepts(random: Option<RandomBytes>, file: IncomingFile, owner: Option<string>, now: string)
    ensures Upload(random, file, owner, now).Success?
      <==> file.mimetype in AllowedMimeTypes && random.Some? && file.size <= 20971520
    ensures file.mimetype !in AllowedMimeTypes ==>
      Upload(random, file, owner, now) == Failure(FilterRejected(RejectMessage))
  {
  }

  /** Everything the PDF-only configuration accepts, this one accepts too, but not conversely. */
  lemma FiltersNested(mimetype: string)
    ensures GridfsConfig.FileFilter(mimetype).Accept? ==> FileFilter(mimetype).Accept?
    ensures FileFilter("image/png").Accept? && GridfsConfig.FileFilter("image/png").Reject?
  {
  }

  /** Both configurations name stored files the same way and share bucket and limit. */
  lemma SameNamingAsGridfsConfig(random: RandomBytes, file: IncomingFile, owner: Option<string>, now: string)
    ensures BuildFileInfo(Some(random), file, owner, now).value.filename
         == GridfsConfig.BuildFileInfo(Some(random), file).value.filename
    ensures BucketName == GridfsConfig.BucketName && MaxFileSize == GridfsConfig.MaxFileSize
  {
  }
}
