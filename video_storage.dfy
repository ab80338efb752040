/**
 * The video storage service: which storage backend is configured, how the
 * MinIO endpoint becomes a port and a TLS flag, the links handed out for
 * streams and thumbnails, and the object keys an upload is stored under.
 *
 * The module-level configuration is read once from the environment; here it
 * is the value `Configure` returns, passed to every operation.
 */
module VideoStorage {
  import opened Common
  import VideoRepository

  // ---------------------------------------------------------------------------
  // Configuration

  datatype StorageMode = Filesystem | Minio

  /** `VIDEO_STORAGE_MODE || 'filesystem'`, then `=== 'minio'`. */
  function StorageModeOf(setting: Option<string>): (mode: StorageMode)
    ensures mode == Minio <==> setting == Some("minio")
  {
    var environment := if setting.Some? && setting.value != "" then setting.value else "filesystem";
    if environment == "minio" then Minio else Filesystem
  }

  /** The parts of `new URL(MINIO_ENDPOINT)` the service reads; `port` is "" when the URL names none. */
  datatype EndpointUrl = EndpointUrl(protocol: string, hostname: string, port: string)

  /** `new URL('http://localhost:9000')`, used when MINIO_ENDPOINT is unset or empty. */
  const DefaultEndpoint: EndpointUrl := EndpointUrl("http:", "localhost", "9000")

  /** The explicit port when the URL has one, else 443 for `https:` and 80 for anything else. */
  function MinioPort(url: EndpointUrl): Num
  {
    if url.port != "" then ParseNumber(url.port)
    else if url.protocol == "https:" then Int(443)
    else Int(80)
  }

  function UseSsl(url: EndpointUrl): bool
  {
    url.protocol == "https:"
  }

  /**
   * Without an explicit port, the port follows the TLS flag: 443 exactly
   * when TLS is on, 80 exactly when it is off. An explicit port is used as
   * written, whatever the protocol.
   */
  lemma PortFollowsProtocol(url: EndpointUrl)
    ensures url.port == "" ==> (MinioPort(url) == Int(443) <==> UseSsl(url))
    ensures url.port == "" ==> (MinioPort(url) == Int(80) <==> !UseSsl(url))
    ensures url.port != "" && IsDigits(url.port) ==> MinioPort(url) == Int(DigitsValue(url.port))
  {
  }

  /** The default endpoint is plain HTTP on port 9000. */
  lemma DefaultEndpointSettings()
    ensures MinioPort(DefaultEndpoint) == Int(9000) && !UseSsl(DefaultEndpoint)
  {
    assert IsDigits("9000") by {
      assert forall i :: 0 <= i < 4 ==> IsDigit("9000"[i]);
    }
    assert "9000"[..3] == "900" && "900"[..2] == "90" && "90"[..1] == "9" && "9"[..0] == "";
  }

  /** The environment variables the service reads; `None` is unset. */
  datatype Environment = Environment(
    storageMode: Option<string>,
    /** MINIO_ENDPOINT, already parsed, when it is set and non-empty. */
    endpoint: Option<EndpointUrl>,
    accessKey: Option<string>,
    secretKey: Option<string>,
    bucketName: Option<string>)

  datatype MinioSettings = MinioSettings(
    endPoint: string,
    port: Num,
    useSsl: bool,
    accessKey: string,
    secretKey: string,
    bucket: string)

  /** The storage mode and, in MinIO mode, the client settings and bucket. */
  datatype StorageConfig = StorageConfig(mode: StorageMode, minio: Option<MinioSettings>)

  const MissingMinioSettings: string :=
    "MINIO_ACCESS_KEY, MINIO_SECRET_KEY, and MINIO_BUCKET_NAME must be set when VIDEO_STORAGE_MODE=minio"

  /** A JavaScript truthiness test on an optional string: set and non-empty. */
  predicate Truthy(s: Option<string>)
  {
    s.Some? && s.value != ""
  }

  /**
   * The module initialisation: MinIO mode needs an access key, a secret key
   * and a bucket name, and fails at load time without them; filesystem mode
   * reads none of them.
   */
  function Configure(env: Environment): (r: Result<StorageConfig, string>)
    ensures r.Err? <==> StorageModeOf(env.storageMode) == Minio
                        && !(Truthy(env.accessKey) && Truthy(env.secretKey) && Truthy(env.bucketName))
    ensures r.Err? ==> r.error == MissingMinioSettings
    ensures r.Ok? ==> r.value.mode == StorageModeOf(env.storageMode)
    ensures r.Ok? ==> (r.value.mode == Minio <==> r.value.minio.Some?)
    ensures r.Ok? && r.value.minio.Some? ==> r.value.minio.value.bucket != ""
    ensures r.Ok? && r.value.minio.Some? ==>
              && env.accessKey.Some? && env.secretKey.Some? && env.bucketName.Some?
              && var url := if env.endpoint.Some? then env.endpoint.value else DefaultEndpoint;
                 r.value.minio.value == MinioSettings(url.hostname, MinioPort(url), UseSsl(url),
                                                      env.accessKey.value, env.secretKey.value, env.bucketName.value)
  {
    if StorageModeOf(env.storageMode) == Filesystem then Ok(StorageConfig(Filesystem, None))
    else
      var accessKey := if env.accessKey.Some? then env.accessKey.value else "";
      var secretKey := if env.secretKey.Some? then env.secretKey.value else "";
      if accessKey == "" || secretKey == "" || !Truthy(env.bucketName) then Err(MissingMinioSettings)
      else
        var url := if env.endpoint.Some? then env.endpoint.value else DefaultEndpoint;
        Ok(StorageConfig(Minio, Some(MinioSettings(url.hostname, MinioPort(url), UseSsl(url),
                                                   accessKey, secretKey, env.bucketName.value))))
  }

  // ---------------------------------------------------------------------------
  // Links

  /** A link handed to the client: a path on this server, or a presigned MinIO URL. */
  datatype Link = Path(path: string) | Presigned(bucket: string, objectKey: string, expiresInSeconds: int)

  /** Presigned links expire after one hour. */
  const PresignExpirySeconds: int := 60 * 60

  const NotConfigured: string := "MinIO client is not configured"

  const StreamPrefix: string := "/api/videos/"
  const StreamSuffix: string := "/stream"

  /** The stream route of a video. */
  function StreamPath(videoIdentifier: int): string
  {
    StreamPrefix + IntToString(videoIdentifier) + StreamSuffix
  }

  /**
   * How the router matches a path against `/api/videos/:videoId/stream`:
   * the `videoId` segment, non-empty and without a slash, as a number.
   */
  function StreamPathVideoId(path: string): Option<Num>
  {
    if |path| >= |StreamPrefix| + |StreamSuffix| && path[..|StreamPrefix|] == StreamPrefix
       && path[|path| - |StreamSuffix|..] == StreamSuffix
    then
      var segment := path[|StreamPrefix|..|path| - |StreamSuffix|];
      if segment != "" && '/' !in segment then Some(ParseNumber(segment)) else None
    else None
  }

  /** The stream path of a video routes back to that video's identifier. */
  lemma StreamPathRoundTrip(videoIdentifier: nat)
    ensures StreamPathVideoId(StreamPath(videoIdentifier)) == Some(Int(videoIdentifier))
  {
    var digits := NatToString(videoIdentifier);
    var path := StreamPath(videoIdentifier);
    assert path[..|StreamPrefix|] == StreamPrefix;
    assert path[|path| - |StreamSuffix|..] == StreamSuffix;
    assert path[|StreamPrefix|..|path| - |StreamSuffix|] == digits;
    DigitsExclude(digits, '/');
    NatToStringRoundTrip(videoIdentifier);
  }

  /** `getVideoStreamUrl`: the stream route in filesystem mode, a presigned link to the video object otherwise. */
  function StreamLink(config: StorageConfig, video: VideoRepository.VideoRecord): (r: Result<Link, string>)
    ensures r.Err? <==> config.mode.Minio? && (config.minio.None? || config.minio.value.bucket == "")
    ensures r.Err? ==> r.error == NotConfigured
    ensures r.Ok? ==> (r.value.Path? <==> config.mode == Filesystem)
    ensures r.Ok? && r.value.Presigned? ==>
              config.minio.Some? && r.value == Presigned(config.minio.value.bucket, video.videoPath, PresignExpirySeconds)
  {
    if config.mode == Filesystem then Ok(Path(StreamPath(video.id)))
    else if config.minio.None? || config.minio.value.bucket == "" then Err(NotConfigured)
    else Ok(Presigned(config.minio.value.bucket, video.videoPath, PresignExpirySeconds))
  }

  /**
   * In filesystem mode the stream link is the route that serves that very
   * video; in MinIO mode it presigns the stored video path for one hour.
   */
  lemma StreamLinkTarget(config: StorageConfig, video: VideoRepository.VideoRecord)
    requires video.id >= 0
    ensures config.mode == Filesystem ==>
              StreamLink(config, video).Ok? && StreamLink(config, video).value.Path?
              && StreamPathVideoId(StreamLink(config, video).value.path) == Some(Int(video.id))
    ensures StreamLink(config, video).Ok? && config.mode == Minio ==>
              var link := StreamLink(config, video).value;
              link.Presigned? && link.objectKey == video.videoPath && link.expiresInSeconds == 3600
  {
    StreamPathRoundTrip(video.id);
  }

  /**
   * `getVideoThumbnailUrl`: nothing for a null or empty thumbnail; the
   * `/media/` path in filesystem mode; a presigned link otherwise.
   */
  function ThumbnailLink(config: StorageConfig, video: VideoRepository.VideoRecord): (r: Result<Option<Link>, string>)
    ensures r.Err? <==> Truthy(video.thumbnailUrl) && config.mode.Minio?
                        && (config.minio.None? || config.minio.value.bucket == "")
    ensures r.Err? ==> r.error == NotConfigured
    ensures r.Ok? ==> (r.value.Some? <==> Truthy(video.thumbnailUrl))
    ensures r.Ok? && r.value.Some? ==> (r.value.value.Path? <==> config.mode == Filesystem)
    ensures r.Ok? && r.value.Some? && r.value.value.Presigned? ==>
              config.minio.Some? && r.value.value == Presigned(config.minio.value.bucket, video.thumbnailUrl.value, PresignExpirySeconds)
  {
    if !Truthy(video.thumbnailUrl) then Ok(None)
    else if config.mode == Filesystem then Ok(Some(Path("/media/" + video.thumbnailUrl.value)))
    else if config.minio.None? || config.minio.value.bucket == "" then Err(NotConfigured)
    else Ok(Some(Presigned(config.minio.value.bucket, video.thumbnailUrl.value, PresignExpirySeconds)))
  }

  /**
   * A video has a thumbnail link exactly when its thumbnail is set and
   * non-empty; in filesystem mode the link is the stored path under `/media/`.
   */
  lemma ThumbnailLinkPresence(config: StorageConfig, video: VideoRepository.VideoRecord)
    requires ThumbnailLink(config, video).Ok?
    ensures ThumbnailLink(config, video).value.None? <==> video.thumbnailUrl == None || video.thumbnailUrl == Some("")
    ensures config.mode == Filesystem && Truthy(video.thumbnailUrl) ==>
              var link := ThumbnailLink(config, video).value.value;
              link.Path? && StartsWith(link.path, "/media/") && link.path[|"/media/"|..] == video.thumbnailUrl.value
  {
    if config.mode == Filesystem && Truthy(video.thumbnailUrl) {
      var path := "/media/" + video.thumbnailUrl.value;
      assert path[..|"/media/"|] == "/media/";
      assert path[|"/media/"|..] == video.thumbnailUrl.value;
    }
  }

  /**
   * Once the service has loaded, "MinIO client is not configured" cannot
   * happen: every stream and thumbnail link resolves.
   */
  lemma ConfiguredLinksResolve(env: Environment, video: VideoRepository.VideoRecord)
    requires Configure(env).Ok?
    ensures StreamLink(Configure(env).value, video).Ok?
    ensures ThumbnailLink(Configure(env).value, video).Ok?
  {
  }

  // ---------------------------------------------------------------------------
  // File names

  /** `name.replace(/\s+/g, '_')`: every maximal run of whitespace becomes one underscore. */
  function ReplaceWhitespaceRuns(name: string): (r: string)
    ensures forall i :: 0 <= i < |r| ==> !IsWhitespace(r[i])
    decreases |name|
  {
    if name == [] then []
    else if IsWhitespace(name[0]) then
      TrimStartShrinks(name);
      "_" + ReplaceWhitespaceRuns(TrimStart(name))
    else [name[0]] + ReplaceWhitespaceRuns(name[1..])
  }

  lemma TrimStartShrinks(s: string)
    requires s != [] && IsWhitespace(s[0])
    ensures |TrimStart(s)| < |s|
  {
    TrimStartShape(s);
  }

  predicate NoWhitespace(s: string)
  {
    forall i :: 0 <= i < |s| ==> !IsWhitespace(s[i])
  }

  /** A name with no whitespace is left as it is; so replacing twice is replacing once. */
  lemma {:induction false} ReplaceWithoutWhitespace(name: string)
    requires NoWhitespace(name)
    ensures ReplaceWhitespaceRuns(name) == name
    decreases |name|
  {
    if name != [] {
      ReplaceWithoutWhitespace(name[1..]);
    }
  }

  lemma ReplaceIdempotent(name: string)
    ensures ReplaceWhitespaceRuns(ReplaceWhitespaceRuns(name)) == ReplaceWhitespaceRuns(name)
  {
    ReplaceWithoutWhitespace(ReplaceWhitespaceRuns(name));
  }

  /** Leading whitespace followed by text that does not start with whitespace trims to that text. */
  lemma {:induction false} TrimStartRun(run: string, rest: string)
    requires AllWhitespace(run)
    requires rest == [] || !IsWhitespace(rest[0])
    ensures TrimStart(run + rest) == rest
    decreases |run|
  {
    if run != [] {
      assert (run + rest)[1..] == run[1..] + rest;
      TrimStartRun(run[1..], rest);
    }
  }

  /**
   * A run of whitespace, after a prefix without any, becomes exactly one
   * underscore, however long the run is, and the prefix is kept.
   */
  lemma {:induction false} WhitespaceRunBecomesUnderscore(prefix: string, run: string, rest: string)
    requires NoWhitespace(prefix)
    requires run != [] && AllWhitespace(run)
    requires rest == [] || !IsWhitespace(rest[0])
    ensures ReplaceWhitespaceRuns(prefix + run + rest) == prefix + "_" + ReplaceWhitespaceRuns(rest)
    decreases |prefix|
  {
    if prefix == [] {
      assert prefix + run + rest == run + rest;
      TrimStartRun(run, rest);
    } else {
      assert (prefix + run + rest)[1..] == prefix[1..] + run + rest;
      WhitespaceRunBecomesUnderscore(prefix[1..], run, rest);
    }
  }

  /** Text with its trailing slashes removed. */
  function StripTrailingSlashes(path: string): (r: string)
    ensures |r| <= |path| && r == path[..|r|]
    ensures r == [] || r[|r| - 1] != '/'
  {
    if path != [] && path[|path| - 1] == '/' then StripTrailingSlashes(path[..|path| - 1]) else path
  }

  /** The text after the last slash. */
  function AfterLastSlash(path: string): (r: string)
    ensures '/' !in r
    ensures |r| <= |path| && r == path[|path| - |r|..]
  {
    if path == [] || path[|path| - 1] == '/' then []
    else AfterLastSlash(path[..|path| - 1]) + [path[|path| - 1]]
  }

  /** Node's posix `path.basename(p)`: the last segment, trailing slashes ignored. */
  function Basename(path: string): string
  {
    AfterLastSlash(StripTrailingSlashes(path))
  }

  /** The position of the last dot. */
  function LastDot(s: string): (r: Option<nat>)
    ensures r.Some? ==> r.value < |s| && s[r.value] == '.'
  {
    if s == [] then None
    else if s[|s| - 1] == '.' then Some(|s| - 1)
    else LastDot(s[..|s| - 1])
  }

  /**
   * Node's posix `path.extname(p)`: from the last dot of the last segment to
   * its end; "" when the segment has no dot, when its last dot is its first
   * character, or when the segment is "..".
   */
  function Extname(path: string): (ext: string)
    ensures ext == "" || ext[0] == '.'
    ensures |ext| <= |Basename(path)| && ext == Basename(path)[|Basename(path)| - |ext|..]
    ensures ext != "" ==> |ext| < |Basename(path)|
  {
    var part := Basename(path);
    var dot := LastDot(part);
    if dot.None? || dot.value == 0 || part == ".." then ""
    else part[dot.value..]
  }

  /** Node's posix `path.basename(p, path.extname(p))`: the last segment without its extension. */
  function Stem(path: string): string
  {
    var part := Basename(path);
    part[..|part| - |Extname(path)|]
  }

  /**
   * The stem and the extension make up the last segment again, and a name
   * with an extension keeps a non-empty stem.
   */
  lemma StemAndExtension(path: string)
    ensures Stem(path) + Extname(path) == Basename(path)
    ensures Extname(path) != "" ==> Stem(path) != ""
  {
    var part, ext := Basename(path), Extname(path);
    assert Stem(path) == part[..|part| - |ext|];
    assert ext == part[|part| - |ext|..];
    assert part[..|part| - |ext|] + part[|part| - |ext|..] == part;
  }

  /** A text without slashes is its own last segment. */
  lemma {:induction false} BasenameOfSegment(name: string)
    requires '/' !in name
    ensures Basename(name) == name
  {
    assert StripTrailingSlashes(name) == name;
    AfterLastSlashOfSegment(name);
  }

  lemma {:induction false} AfterLastSlashOfSegment(name: string)
    requires '/' !in name
    ensures AfterLastSlash(name) == name
    decreases |name|
  {
    if name != [] {
      assert name[|name| - 1] in name;
      AfterLastSlashOfSegment(name[..|name| - 1]);
    }
  }

  /** The text after the last slash of `folder + name` is the name, when the folder ends in a slash and the name has none. */
  lemma {:induction false} AfterLastSlashOfJoin(folder: string, name: string)
    requires folder != [] && folder[|folder| - 1] == '/'
    requires '/' !in name
    ensures AfterLastSlash(folder + name) == name
    decreases |name|
  {
    var path := folder + name;
    if name == [] {
      assert path == folder;
    } else {
      assert name[|name| - 1] in name;
      assert path[..|path| - 1] == folder + name[..|name| - 1];
      AfterLastSlashOfJoin(folder, name[..|name| - 1]);
    }
  }

  /** In `x + ext`, with `ext` a dot followed by no other dot, the last dot is where `ext` starts. */
  lemma {:induction false} LastDotOfExtension(x: string, ext: string)
    requires ext != [] && ext[0] == '.'
    requires forall i :: 1 <= i < |ext| ==> ext[i] != '.'
    ensures LastDot(x + ext) == Some(|x|)
    decreases |ext|
  {
    var s := x + ext;
    if |ext| > 1 {
      assert s[|s| - 1] == ext[|ext| - 1];
      assert s[..|s| - 1] == x + ext[..|ext| - 1];
      LastDotOfExtension(x, ext[..|ext| - 1]);
    }
  }

  // ---------------------------------------------------------------------------
  // Upload keys

  /** The uploaded name with its whitespace runs replaced. */
  function CleanFileName(originalFileName: string): string
  {
    ReplaceWhitespaceRuns(originalFileName)
  }

  /** `<timestamp>_<name>`: the object name shared by both keys of an upload. */
  function TimestampedName(timestamp: nat, name: string): string
  {
    NatToString(timestamp) + "_" + name
  }

  /** `uploads/<timestamp>_<cleaned name>`. */
  function VideoObjectKey(timestamp: nat, originalFileName: string): string
  {
    "uploads/" + TimestampedName(timestamp, CleanFileName(originalFileName))
  }

  /** `thumbnails/<timestamp>_<cleaned name without extension>.jpg`. */
  function ThumbnailObjectKey(timestamp: nat, originalFileName: string): string
  {
    "thumbnails/" + TimestampedName(timestamp, Stem(CleanFileName(originalFileName)) + ".jpg")
  }

  /**
   * For a name without slashes, the two keys share the timestamp and the
   * stem: the video key keeps the name's extension, the thumbnail key
   * replaces it with ".jpg".
   */
  lemma KeysShareStem(timestamp: nat, originalFileName: string)
    requires '/' !in CleanFileName(originalFileName)
    ensures var clean := CleanFileName(originalFileName);
            && VideoObjectKey(timestamp, originalFileName) == "uploads/" + TimestampedName(timestamp, Stem(clean) + Extname(clean))
            && ThumbnailObjectKey(timestamp, originalFileName) == "thumbnails/" + TimestampedName(timestamp, Stem(clean) + ".jpg")
  {
    var clean := CleanFileName(originalFileName);
    BasenameOfSegment(clean);
    StemAndExtension(clean);
  }

  /** The thumbnail key always names a ".jpg" file. */
  lemma ThumbnailKeyIsJpeg(timestamp: nat, originalFileName: string)
    ensures Extname(ThumbnailObjectKey(timestamp, originalFileName)) == ".jpg"
  {
    var stem := Stem(CleanFileName(originalFileName));
    var digits := NatToString(timestamp);
    StemHasNoSlash(CleanFileName(originalFileName));
    DigitsExclude(digits, '/');
    NoSlashInName(digits, stem);
    JpegName(digits, stem);
    ExtnameUnderFolder("thumbnails/", digits + "_" + (stem + ".jpg"), |digits + "_" + stem|);
  }

  /** A stem is part of one segment, so it has no slash. */
  lemma StemHasNoSlash(path: string)
    ensures '/' !in Stem(path)
  {
    var part := Basename(path);
    assert Stem(path) == part[..|part| - |Extname(path)|];
  }

  /**
   * Under a folder, a slash-free name whose last dot is not its first
   * character keeps the extension that starts at that dot.
   */
  lemma ExtnameUnderFolder(folder: string, name: string, dot: nat)
    requires folder != [] && folder[|folder| - 1] == '/'
    requires '/' !in name && |name| > 2
    requires 0 < dot && LastDot(name) == Some(dot)
    ensures Extname(folder + name) == name[dot..]
  {
    BasenameUnderFolder(folder, name);
  }

  /** The last segment of `folder + name` is the name. */
  lemma BasenameUnderFolder(folder: string, name: string)
    requires folder != [] && folder[|folder| - 1] == '/'
    requires '/' !in name && name != []
    ensures Basename(folder + name) == name
  {
    var key := folder + name;
    assert key[|key| - 1] == name[|name| - 1] && name[|name| - 1] in name;
    assert StripTrailingSlashes(key) == key;
    AfterLastSlashOfJoin(folder, name);
  }

  /** The thumbnail's object name has no slash when its parts have none. */
  lemma NoSlashInName(digits: string, stem: string)
    requires '/' !in digits && '/' !in stem
    ensures '/' !in digits + "_" + (stem + ".jpg")
  {
    var name := digits + "_" + (stem + ".jpg");
    forall i | 0 <= i < |name| ensures name[i] != '/' {
      if i < |digits| {
        assert name[i] == digits[i];
      } else if i > |digits| && i < |digits| + 1 + |stem| {
        assert name[i] == stem[i - |digits| - 1];
      }
    }
  }

  /** `<digits>_<stem>.jpg` has its last dot just before "jpg". */
  lemma JpegName(digits: string, stem: string)
    ensures var name, x := digits + "_" + (stem + ".jpg"), digits + "_" + stem;
            LastDot(name) == Some(|x|) && name[|x|..] == ".jpg"
  {
    var x := digits + "_" + stem;
    assert digits + "_" + (stem + ".jpg") == x + ".jpg";
    LastDotOfExtension(x, ".jpg");
  }

  /** The two paths `uploadVideoWithThumbnail` returns. */
  datatype UploadedPaths = UploadedPaths(videoPath: string, thumbnailPath: string)

  /**
   * The keys of an upload, computed from the name and one timestamp; the
   * files are written under them in the media directory or put into the
   * bucket under them.
   */
  function UploadPaths(config: StorageConfig, originalFileName: string, timestamp: nat): (r: Result<UploadedPaths, string>)
    ensures r.Err? <==> config.mode.Minio? && (config.minio.None? || config.minio.value.bucket == "")
    ensures r.Err? ==> r.error == NotConfigured
    ensures r.Ok? ==> r.value.videoPath == VideoObjectKey(timestamp, originalFileName)
                      && r.value.thumbnailPath == ThumbnailObjectKey(timestamp, originalFileName)
  {
    var paths := UploadedPaths(VideoObjectKey(timestamp, originalFileName), ThumbnailObjectKey(timestamp, originalFileName));
    if config.mode == Filesystem then Ok(paths)
    else if config.minio.None? || config.minio.value.bucket == "" then Err(NotConfigured)
    else Ok(paths)
  }

  /** Both storage modes return the same paths for the same upload. */
  lemma UploadPathsIndependentOfMode(env1: Environment, env2: Environment, originalFileName: string, timestamp: nat)
    requires Configure(env1).Ok? && Configure(env2).Ok?
    ensures UploadPaths(Configure(env1).value, originalFileName, timestamp).Ok?
    ensures UploadPaths(Configure(env1).value, originalFileName, timestamp)
            == UploadPaths(Configure(env2).value, originalFileName, timestamp)
  {
  }
}
