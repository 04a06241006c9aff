/** Photo upload and removal against the three storage buckets: the configuration read from the
    environment, the checks an upload must pass, the stored file's name, and the removal request. */
module Storage {
  import opened Wrappers
  import opened Text

  /** The build-time environment: each bucket's name variable, and what `parseInt` made of each size
      limit variable (`None` when it read no number, as for a missing variable). */
  datatype Env = Env(
    volunteersBucket: Option<string>,
    volunteersSizeLimit: Option<int>,
    speakersBucket: Option<string>,
    speakersSizeLimit: Option<int>,
    sponsorsBucket: Option<string>,
    sponsorsSizeLimit: Option<int>)

  /** A bucket's name, its size limit in KB and the extension used when a file name gives none. */
  datatype BucketConfig = BucketConfig(name: string, sizeLimit: int, defaultExt: string)

  /** The browser's `File`: its name, MIME type and size in bytes. */
  datatype FileInfo = FileInfo(name: string, mimeType: string, size: nat)

  /** An object in a bucket: what `upload` writes and what `remove` deletes. */
  datatype StoredObject = StoredObject(bucket: string, fileName: string)

  const DEFAULT_EXT: string := "jpg"

  /** `BUCKET_CONFIGS[bucketType]`: the three configured buckets, each with its default name and size
      limit; any other key finds nothing. */
  function Config(env: Env, bucketType: string): (r: Option<BucketConfig>)
    ensures r.Some? <==> bucketType == "volunteers" || bucketType == "speakers" || bucketType == "sponsors"
    ensures bucketType == "volunteers" ==>
      r == Some(BucketConfig(StringOr(env.volunteersBucket, "volunteers"), IntOr(env.volunteersSizeLimit, 50), DEFAULT_EXT))
    ensures bucketType == "speakers" ==>
      r == Some(BucketConfig(StringOr(env.speakersBucket, "speakers"), IntOr(env.speakersSizeLimit, 100), DEFAULT_EXT))
    ensures bucketType == "sponsors" ==>
      r == Some(BucketConfig(StringOr(env.sponsorsBucket, "sponsors"), IntOr(env.sponsorsSizeLimit, 200), DEFAULT_EXT))
  {
    if bucketType == "volunteers" then
      Some(BucketConfig(StringOr(env.volunteersBucket, "volunteers"), IntOr(env.volunteersSizeLimit, 50), DEFAULT_EXT))
    else if bucketType == "speakers" then
      Some(BucketConfig(StringOr(env.speakersBucket, "speakers"), IntOr(env.speakersSizeLimit, 100), DEFAULT_EXT))
    else if bucketType == "sponsors" then
      Some(BucketConfig(StringOr(env.sponsorsBucket, "sponsors"), IntOr(env.sponsorsSizeLimit, 200), DEFAULT_EXT))
    else None
  }

  /** Whenever a size limit variable is missing, not a number or 0, the limits are 50, 100 and 200 KB,
      and every bucket falls back to "jpg". */
  lemma DefaultLimits(env: Env)
    requires env.volunteersSizeLimit in {None, Some(0)}
    requires env.speakersSizeLimit in {None, Some(0)}
    requires env.sponsorsSizeLimit in {None, Some(0)}
    ensures Config(env, "volunteers").value.sizeLimit == 50
    ensures Config(env, "speakers").value.sizeLimit == 100
    ensures Config(env, "sponsors").value.sizeLimit == 200
    ensures forall b :: Config(env, b).Some? ==> Config(env, b).value.defaultExt == "jpg"
  {
  }

  predicate IsImage(file: FileInfo) {
    "image/" <= file.mimeType
  }

  /** Whether a file fits a limit given in KB: a size of exactly the limit still fits. */
  predicate FitsLimit(file: FileInfo, sizeLimit: int) {
    file.size <= sizeLimit * 1024
  }

  /** The checks of `uploadFile`, in order: the bucket must exist, the file must be an image, and it
      must fit the bucket's limit. The first check that fails gives the error message. */
  function CheckUpload(env: Env, file: FileInfo, bucketType: string): (r: Result<BucketConfig, string>)
    ensures Config(env, bucketType).None? ==> r == Err("Unknown bucket type: " + bucketType)
    ensures Config(env, bucketType).Some? && !IsImage(file) ==> r == Err("Please select an image file")
    ensures Config(env, bucketType).Some? && IsImage(file) && !FitsLimit(file, Config(env, bucketType).value.sizeLimit)
      ==> r == Err("File size must be less than " + IntToDecimal(Config(env, bucketType).value.sizeLimit) + "KB")
    ensures r.Ok? <==> Config(env, bucketType).Some? && IsImage(file) && FitsLimit(file, Config(env, bucketType).value.sizeLimit)
    ensures r.Ok? ==> r.value == Config(env, bucketType).value
  {
    match Config(env, bucketType)
    case None => Err("Unknown bucket type: " + bucketType)
    case Some(config) =>
      if !IsImage(file) then Err("Please select an image file")
      else if !FitsLimit(file, config.sizeLimit) then Err("File size must be less than " + IntToDecimal(config.sizeLimit) + "KB")
      else Ok(config)
  }

  /** A 60 KB image for the volunteers bucket, under the default 50 KB limit, is refused with a
      message naming the limit. */
  lemma SixtyKilobytesRefused(env: Env, mimeType: string, name: string)
    requires env.volunteersSizeLimit == None && "image/" <= mimeType
    ensures CheckUpload(env, FileInfo(name, mimeType, 60 * 1024), "volunteers") == Err("File size must be less than 50KB")
  {
    var config := Config(env, "volunteers").value;
    assert config.sizeLimit == 50;
    assert !FitsLimit(FileInfo(name, mimeType, 60 * 1024), 50);
    assert IntToDecimal(50) == "50" by {
      assert NatToDecimal(5) == "5";
      assert NatToDecimal(50) == NatToDecimal(5) + "0";
      assert IntToDecimal(50) == NatToDecimal(50);
    }
    assert "File size must be less than " + "50" + "KB" == "File size must be less than 50KB";
  }

  /** The file's extension: the lower-cased text after its last ".", the whole lower-cased name when
      it has no ".", and the bucket's default when that text is empty. */
  function FileExtension(fileName: string, defaultExt: string): (r: string)
    ensures LastSegment(fileName, '.') != "" ==> r == Lower(LastSegment(fileName, '.'))
    ensures LastSegment(fileName, '.') == "" ==> r == defaultExt
    ensures '.' !in fileName && fileName != "" ==> r == Lower(fileName)
    ensures r == defaultExt || ('.' !in r && forall i :: 0 <= i < |r| ==> !IsUpperAscii(r[i]))
  {
    LastSegmentOfPlainIfNoDot(fileName);
    var tail := Lower(LastSegment(fileName, '.'));
    if tail != "" then tail else defaultExt
  }

  lemma LastSegmentOfPlainIfNoDot(fileName: string)
    ensures '.' !in fileName ==> LastSegment(fileName, '.') == fileName
  {
    if '.' !in fileName {
      LastSegmentOfPlain(fileName, '.');
    }
  }

  /** The stored file's name: the entity's id, a dash, the upload time in milliseconds, a dot and
      the extension. */
  function StoredName(entityId: string, now: nat, ext: string): (r: string)
    ensures r == entityId + "-" + NatToDecimal(now) + "." + ext
  {
    entityId + "-" + NatToDecimal(now) + "." + ext
  }

  /** The extension survives into the stored name: reading the extension of a stored name gives back
      the one it was built with. */
  lemma StoredNameKeepsExtension(entityId: string, now: nat, ext: string, defaultExt: string)
    requires ext != "" && '.' !in ext && forall i :: 0 <= i < |ext| ==> !IsUpperAscii(ext[i])
    ensures FileExtension(StoredName(entityId, now, ext), defaultExt) == ext
  {
    LastSegmentAfter(entityId + "-" + NatToDecimal(now), '.', ext);
    assert StoredName(entityId, now, ext) == entityId + "-" + NatToDecimal(now) + ['.'] + ext;
    assert Lower(ext) == ext;
  }

  /** One run of `uploadFile`: the object it asks the backend to write (none when a check fails) and
      the URL it returns or the message of the error it throws. */
  datatype UploadRun = UploadRun(written: Option<StoredObject>, outcome: Result<string, string>)

  /** `uploadFile`, with the clock reading `now`, the backend's answer to the upload (`Some(message)`
      for an error) and the public URL the backend derives for the stored name. */
  function UploadFile(env: Env, file: FileInfo, bucketType: string, entityId: string, now: nat,
                      uploadError: Option<string>, publicUrl: string): (run: UploadRun)
    ensures CheckUpload(env, file, bucketType).Err? ==>
      run.written == None && run.outcome == Err(CheckUpload(env, file, bucketType).error)
    ensures CheckUpload(env, file, bucketType).Ok? ==>
      var config := CheckUpload(env, file, bucketType).value;
      && run.written == Some(StoredObject(config.name, StoredName(entityId, now, FileExtension(file.name, config.defaultExt))))
      && run.outcome == (if uploadError.Some? then Err("Upload failed: " + uploadError.value) else Ok(publicUrl))
  {
    match CheckUpload(env, file, bucketType)
    case Err(message) => UploadRun(None, Err(message))
    case Ok(config) =>
      var fileName := StoredName(entityId, now, FileExtension(file.name, config.defaultExt));
      UploadRun(Some(StoredObject(config.name, fileName)),
                if uploadError.Some? then Err("Upload failed: " + uploadError.value) else Ok(publicUrl))
  }

  /** `deleteFile`: nothing is removed for an empty URL, an unknown bucket, or a URL ending in "/";
      otherwise the text after the URL's last "/" is removed from the bucket. */
  function DeleteFile(env: Env, fileUrl: string, bucketType: string): (r: Option<StoredObject>)
    ensures fileUrl == "" || Config(env, bucketType).None? || LastSegment(fileUrl, '/') == "" ==> r == None
    ensures r.Some? ==>
      r.value.bucket == Config(env, bucketType).value.name && r.value.fileName == LastSegment(fileUrl, '/') && r.value.fileName != ""
    ensures fileUrl != "" && Config(env, bucketType).Some? && LastSegment(fileUrl, '/') != "" ==> r.Some?
  {
    if fileUrl == "" then None
    else match Config(env, bucketType)
      case None => None
      case Some(config) =>
        var fileName := LastSegment(fileUrl, '/');
        if fileName == "" then None else Some(StoredObject(config.name, fileName))
  }

  /** A photo uploaded and then deleted through its public URL: when the URL ends with "/" and the
      stored name, and neither the id nor the extension holds a "/", the delete removes exactly the
      object the upload wrote. */
  lemma DeleteRemovesUploaded(env: Env, file: FileInfo, bucketType: string, entityId: string, now: nat,
                              base: string)
    requires CheckUpload(env, file, bucketType).Ok?
    requires '/' !in entityId && '/' !in FileExtension(file.name, Config(env, bucketType).value.defaultExt)
    ensures var name := StoredName(entityId, now, FileExtension(file.name, Config(env, bucketType).value.defaultExt));
      var run := UploadFile(env, file, bucketType, entityId, now, None, base + "/" + name);
      && run.outcome == Ok(base + "/" + name)
      && run.written == Some(StoredObject(Config(env, bucketType).value.name, name))
      && DeleteFile(env, base + "/" + name, bucketType) == run.written
  {
    var config := Config(env, bucketType).value;
    var name := StoredName(entityId, now, FileExtension(file.name, config.defaultExt));
    StoredNameSlashFree(entityId, now, FileExtension(file.name, config.defaultExt));
    LastSegmentAfter(base, '/', name);
    assert base + "/" + name == base + ['/'] + name;
  }

  /** A stored name holds a "/" only where its id or its extension does. */
  lemma StoredNameSlashFree(entityId: string, now: nat, ext: string)
    requires '/' !in entityId && '/' !in ext
    ensures '/' !in StoredName(entityId, now, ext)
  {
    var digits := NatToDecimal(now);
    assert '/' !in digits by {
      forall i | 0 <= i < |digits| ensures digits[i] != '/' {
        assert IsDigit(digits[i]);
      }
    }
    var name := StoredName(entityId, now, ext);
    forall i | 0 <= i < |name| ensures name[i] != '/' {
      if i < |entityId| {
        assert name[i] == entityId[i];
      } else if i == |entityId| {
        assert name[i] == '-';
      } else if i < |entityId| + 1 + |digits| {
        assert name[i] == digits[i - |entityId| - 1];
      } else if i == |entityId| + 1 + |digits| {
        assert name[i] == '.';
      } else {
        assert name[i] == ext[i - |entityId| - 2 - |digits|];
      }
    }
  }
}
