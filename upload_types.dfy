/**
 * What the two multer upload configurations have in common: the file part multer hands
 * to `fileFilter` and to the GridFS storage engine, the filter's callback outcomes, the
 * order in which multer applies the filter, the storage engine's `file` builder and the
 * size limit, and the stored-filename rule both builders use.
 */
module UploadTypes {
  import opened Wrappers
  import opened NodeRuntime

  /** The 16 bytes `crypto.randomBytes(16)` yields. */
  type RandomBytes = s: seq<uint8> | |s| == 16 witness seq(16, i => 0 as uint8)

  /** The multipart file part: `file.originalname`, `file.mimetype` and its byte length. */
  datatype IncomingFile = IncomingFile(originalname: string, mimetype: string, size: nat)

  /** `cb(null, true)` or `cb(new Error(message))`. */
  datatype FilterDecision = Accept | Reject(message: string)

  datatype UploadError =
    | FilterRejected(message: string)   // fileFilter called back with an error
    | RandomBytesFailed                 // crypto.randomBytes reported an error: the builder rejects
    | FileTooLarge                      // multer's LIMIT_FILE_SIZE

  /** `buf.toString('hex') + path.extname(file.originalname)`. */
  function StoredFilename(random: RandomBytes, originalname: string): (name: string)
    ensures |name| == 32 + |ExtName(originalname)|
    ensures forall i :: 0 <= i < 32 ==> IsLowerHex(name[i])
    ensures HexDecode(name[..32]) == Some(random)
    ensures name[32..] == ExtName(originalname)
  {
    HexRoundTrip(random);
    var hex := HexEncode(random);
    assert (hex + ExtName(originalname))[..32] == hex;
    hex + ExtName(originalname)
  }

  /** Two uploads get the same stored name only when their random bytes agree. */
  lemma StoredFilenameDeterminesRandom(r1: RandomBytes, r2: RandomBytes, n1: string, n2: string)
    requires StoredFilename(r1, n1) == StoredFilename(r2, n2)
    ensures r1 == r2
  {
    assert Some(r1) == HexDecode(StoredFilename(r1, n1)[..32]) == Some(r2);
  }

  /**
   * The order multer and the GridFS storage engine apply to one file: the filter first,
   * then the storage engine's `file` builder, then the size limit while streaming.
   */
  function RunUpload<I>(decision: FilterDecision, info: Result<I, UploadError>, size: nat, limit: nat)
    : (r: Result<I, UploadError>)
    ensures r.Success? <==> decision.Accept? && info.Success? && size <= limit
    ensures r.Success? ==> r == info
    ensures decision.Reject? ==> r == Failure(FilterRejected(decision.message))
    ensures decision.Accept? && info.Failure? ==> r == info
    ensures decision.Accept? && info.Success? && size > limit ==> r == Failure(FileTooLarge)
  {
    if decision.Reject? then Failure(FilterRejected(decision.message))
    else if info.Failure? then info
    else if size > limit then Failure(FileTooLarge)
    else info
  }
}
