# stream-it-app core, modelled in Dafny

This project models the logic at the core of the stream-it-app video service:

- **Byte-range streaming.** The `GET /api/videos/:videoId/stream` handler (`VideoStreaming`, in `video_streaming.dfy`) serves one media file. It checks for a Range header, parses a single `bytes=<start>-<end>` range, limits an open range to 1,000,000 bytes past the start, and refuses bounds past the end of the file with 416. Otherwise it writes a 206 head and copies the inclusive byte slice.
- **Video repository.** `VideoRepository` (`video_repository.dfy`) covers these parts of the video repository:
  - how `updateVideo` builds its `SET col = $k` clauses, its numbered placeholders and its parallel value list;
  - what that UPDATE does to the `videos` table, and the replacement of the video's genre links;
  - the defaults `createVideo` applies;
  - the mapping from database rows to video records.

  The two tables are a `VideoTable` class: a map of rows, a set of (video, genre) links and the serial counter.
- **Video storage.** `VideoStorage` (`video_storage.dfy`) models the video storage service:
  - the filesystem/MinIO mode switch and the MinIO port and SSL settings;
  - the object keys that `uploadVideoWithThumbnail` derives from an uploaded file name, using Node's `path.basename` and `path.extname`;
  - the stream and thumbnail links.
- **Admin video form.** `AdminVideoForm` (`admin_video_form.dfy`) models the admin video form's genre-list parser and its submit handler. The form's state is a class.
- **Middleware.** `AuthMiddleware` (`auth_middleware.dfy`) and `AdminMiddleware` (`admin_middleware.dfy`) model the `requireAuth` and `requireAdmin` middleware.
- **JavaScript semantics.** `Common` (`common.dfy`) models the JavaScript behaviour the rest of the model relies on:
  - `Number()` on decimal digit strings: `""` is 0, anything else that is not digits is `NaN`;
  - number-to-text in template literals;
  - `String.split` on a single character;
  - `trim`, `trimStart` and `trimEnd` over the ECMAScript whitespace set.

The handler accepts more than RFC 7233 does, and the model keeps what the code does:

- A range bound that is not a digit string is not refused, although section 2.1 of RFC 7233 makes such a range syntactically invalid. `Number("abc")` is `NaN`, and `NaN` fails both `>=` tests (backend/src/routes/videoRoutes.ts:38-49). The reply is 416 when the other bound reaches the file size; otherwise a 206 head is written with `NaN` in it (outcome `NotANumber`).
- `bytes=-500` is a suffix range in section 2.1 of RFC 7233 ("the last 500 bytes"). The handler reads its empty start token as `Number("") = 0`, so it serves bytes 0 to 500.
- An inverted range inside the file (`bytes=10-5`) is not refused, although section 2.1 of RFC 7233 makes it invalid. It gets a 206 head with Content-Length `end - start + 1` and an empty body.
- `updateVideo` replaces the genre links whenever a genre list is given, even an empty one (backend/src/modules/videos/videoRepository.ts:213-233). The comment above the function (line 154) says it does not change genres.

## Model

| member | source | states |
|---|---|---|
| Common.ParseNumber | backend/src/routes/videoRoutes.ts:38 | `Number(token)` is NaN exactly when the token is not a digit string; `""` is 0; a parsed value is never negative |
| Common.NatToStringRoundTrip | backend/src/routes/videoRoutes.ts:53 | the decimal text a template literal prints for a number parses back to that number |
| Common.NatToStringInjective | backend/src/routes/videoRoutes.ts:61 | distinct numbers print as distinct texts |
| Common.Split | backend/src/routes/videoRoutes.ts:36 | `split` on a character yields at least one piece and no piece contains the separator |
| Common.JoinSplit | backend/src/routes/videoRoutes.ts:36 | joining the pieces of a split with the separator gives back the text |
| Common.SplitJoin | backend/src/routes/videoRoutes.ts:36 | splitting a join of separator-free pieces gives back the pieces |
| Common.TrimStartShape | frontend/src/pages/admin/AdminVideoFormPage.tsx:71 | `trimStart` removes exactly the leading whitespace: the result is a suffix, what was removed is all whitespace, and the result does not start with whitespace |
| Common.TrimEndShape | frontend/src/pages/admin/AdminVideoFormPage.tsx:71 | `trimEnd` removes exactly the trailing whitespace, symmetrically |
| Common.TrimEnds | backend/src/middleware/authMiddleware.ts:18 | a trimmed text neither starts nor ends with whitespace |
| Common.TrimEmpty | frontend/src/pages/admin/AdminVideoFormPage.tsx:71-75 | `trim` gives the empty (falsy) string exactly when the input is all whitespace |
| Common.TrimNoop | backend/src/middleware/authMiddleware.ts:18 | a text without whitespace at either end is unchanged by `trim` |
| Common.TrimIdempotent | frontend/src/pages/admin/AdminVideoFormPage.tsx:77 | trimming twice is trimming once |
| VideoStreaming.OpenEndedEnd | backend/src/routes/videoRoutes.ts:43-47 | the open-range end is at most `size - 1` and at most `start + 1_000_000`, equal to one of them, and NaN when the start is |
| VideoStreaming.Resolve | backend/src/routes/videoRoutes.ts:14-56 | the checks in the handler's order: 404 exactly when the file is missing; missing header exactly when the header is absent or empty; bad prefix exactly when it does not start with `bytes=`; 416 carries the size and a bound that reaches it; a 206 range lies inside the file; NaN outcomes have a NaN bound and no bound reaching the size |
| VideoStreaming.ContentLength | backend/src/routes/videoRoutes.ts:58 | the length is a number exactly when both bounds are |
| VideoStreaming.ReplyFor | backend/src/routes/videoRoutes.ts:14-65 | status 404, 400, 416 and 206 each for exactly their outcomes; the 404 JSON error "Video file not found on server"; "Range header is required" for a missing header and "Invalid Range header format" for a bad prefix; the 416 text `Request range not satisfiable: start-end/size`; a 206 head has Accept-Ranges `bytes` and Content-Type `video/mp4` |
| VideoStreaming.BodyFor | backend/src/routes/videoRoutes.ts:67-70 | the body is file bytes `first..last` inclusive, of length `last - first + 1`, and empty for every other outcome |
| VideoStreaming.StreamVideo | backend/src/routes/videoRoutes.ts:7-85 | the handler writes `ReplyFor(Resolve(...))` and its body array holds `BodyFor(Resolve(...), file)` |
| VideoStreaming.CopyRange | backend/src/routes/videoRoutes.ts:67-74 | the copy loop fills a fresh array with exactly `file[first..last + 1]` |
| VideoStreaming.ResolveAfterPrefix | backend/src/routes/videoRoutes.ts:30-47 | past the `bytes=` prefix only the two tokens decide the outcome |
| VideoStreaming.TwoTokens | backend/src/routes/videoRoutes.ts:36 | `a-b` destructures to the tokens `a` and `b` |
| VideoStreaming.ResolveClosedRange | backend/src/routes/videoRoutes.ts:36-58 | `bytes=f-l` is 206 for `(f, l)` when both are below the size, else 416 with those bounds |
| VideoStreaming.ResolveOpenRange | backend/src/routes/videoRoutes.ts:43-58 | `bytes=f-` ends at `min(f + 1_000_000, size - 1)`; 206 when `f < size`, else 416 |
| VideoStreaming.OpenRangeCapped | backend/src/routes/videoRoutes.ts:43-47 | for any header, an open-ended 206 never passes the last byte and never spans more than 1,000,001 bytes |
| VideoStreaming.NoDashIsOpenEnded | backend/src/routes/videoRoutes.ts:36-47 | `bytes=f` without a dash is treated as `bytes=f-` |
| VideoStreaming.EmptyStartIsZero | backend/src/routes/videoRoutes.ts:36-38 | `bytes=-l` is treated as `bytes=0-l` |
| VideoStreaming.ExtraPiecesIgnored | backend/src/routes/videoRoutes.ts:36 | pieces after the second `-` have no effect |
| VideoStreaming.NonNumericStart | backend/src/routes/videoRoutes.ts:38-56 | a non-numeric start is never refused as such: 416 when the end reaches the size, otherwise the NaN outcome |
| VideoStreaming.InvertedRangeServed | backend/src/routes/videoRoutes.ts:49-70 | an in-bounds range with `last < first` gets a 206 head with length `last - first + 1` and an empty body |
| VideoStreaming.BoundsRoundTrip | backend/src/routes/videoRoutes.ts:53-61 | the printed `f-l/size` of three numbers reads back as those numbers |
| VideoStreaming.ContentRangeRoundTrip | backend/src/routes/videoRoutes.ts:61 | the Content-Range header `bytes f-l/size` reads back as `(f, l, size)` |
| VideoStreaming.NotSatisfiableRoundTrip | backend/src/routes/videoRoutes.ts:49-54 | the 416 reply for numeric bounds is the plain text `Request range not satisfiable: f-l/size`, which reads back as `(f, l, size)` |
| VideoStreaming.PartialReplyDescribesBody | backend/src/routes/videoRoutes.ts:58-70 | the 206 head names the served range and the file size, and its Content-Length is the body length when the range is not inverted |
| VideoStreaming.LastByteExample | backend/src/routes/videoRoutes.ts:36-58 | `bytes=499-499` on a 500-byte file is a 206 for byte 499 |
| VideoStreaming.PastEndExample | backend/src/routes/videoRoutes.ts:49-56 | `bytes=500-500` on a 500-byte file is 416 |
| VideoStreaming.OpenRangeExample | backend/src/routes/videoRoutes.ts:43-47 | `bytes=0-` on a 500-byte file is a 206 for bytes 0 to 499 |
| AuthMiddleware.BearerToken | backend/src/middleware/authMiddleware.ts:11-18 | a token exists exactly when the header is present and starts with `Bearer ` (case-sensitive); it has no whitespace at either end |
| AuthMiddleware.BearerTokenRoundTrip | backend/src/middleware/authMiddleware.ts:18 | the token a client sends after `Bearer ` is the token verified |
| AuthMiddleware.SchemeIsCaseSensitive | backend/src/middleware/authMiddleware.ts:11 | a `bearer ` header is rejected |
| AuthMiddleware.Authenticate | backend/src/middleware/authMiddleware.ts:9-31 | 401 "Authorization header missing or invalid" exactly when there is no bearer token; 401 "Invalid or expired token" exactly when verification fails; `next` exactly when it succeeds |
| AuthMiddleware.RequireAuth | backend/src/middleware/authMiddleware.ts:4-32 | the gate is `Authenticate`'s; on `next` the request's userId, userEmail and isAdmin are the verified claims; on a reject the request is unchanged |
| AdminMiddleware.RequireAdmin | backend/src/middleware/adminMiddleware.ts:7-23 | 401 "Unauthorized" exactly when userId is falsy (missing or 0); 403 "Admin privileges required" exactly when there is a user but isAdmin is not true; `next` exactly otherwise |
| AdminMiddleware.NoUserNeverForbidden | backend/src/middleware/adminMiddleware.ts:12-20 | without a user the answer is 401 whatever isAdmin says |
| AdminMiddleware.AdminRouteReached | backend/src/middleware/adminMiddleware.ts:7-23 | behind `requireAuth`, an admin route is reached exactly when the token verifies to a non-zero user with the admin flag; every other request gets 401 or 403, and 403 only for a verified non-admin |
| AdminMiddleware.RunAdminChain | backend/src/routes/adminVideoRoutes.ts:14 | running both middlewares on a request gives `AdminChain`'s answer |
| VideoRepository.ToVideoRecord | backend/src/modules/videos/videoRepository.ts:14-25 | each column is copied to its field; null genres become `[]` |
| VideoRepository.ColumnNamedName | backend/src/modules/videos/videoRepository.ts:173-196 | each column's SQL name identifies that column |
| VideoRepository.PatchedUpToExactly | backend/src/modules/videos/videoRepository.ts:173-196 | after the first k tests, a column has a clause exactly when it is among them and its field is not undefined |
| VideoRepository.PatchedExactly | backend/src/modules/videos/videoRepository.ts:173-196 | a column gets a clause exactly when its field is not undefined (null included) |
| VideoRepository.PatchedUpToInOrder | backend/src/modules/videos/videoRepository.ts:173-196 | the clauses of the first k tests follow the fixed column order |
| VideoRepository.PatchedInOrder | backend/src/modules/videos/videoRepository.ts:173-196 | the clauses follow the order title, description, thumbnail_url, video_path, release_year, age_rating, with no column repeated |
| VideoRepository.ClauseRoundTrip | backend/src/modules/videos/videoRepository.ts:174 | the clause `col = $k` reads back as column `col` and placeholder `k` |
| VideoRepository.ClausesForIndex | backend/src/modules/videos/videoRepository.ts:171-196 | the k-th clause numbers its placeholder `offset + k + 1` |
| VideoRepository.PatchedAllDefined | backend/src/modules/videos/videoRepository.ts:173-196 | every column with a clause has a defined value |
| VideoRepository.ValuesForIndex | backend/src/modules/videos/videoRepository.ts:173-196 | the k-th value is the field of the k-th clause's column |
| VideoRepository.PlaceholdersNumbered | backend/src/modules/videos/videoRepository.ts:169-205 | with n clauses: the k-th clause is `col = $k`, `values[k-1]` is that column's field, the WHERE uses `$(n+1)`, and the identifier is the last of n+1 values |
| VideoRepository.BuilderPush | backend/src/modules/videos/videoRepository.ts:173-176 | a defined field appends one clause numbered with the current counter, appends its value, and bumps the counter |
| VideoRepository.BuilderSkip | backend/src/modules/videos/videoRepository.ts:173-196 | an undefined field leaves clauses, values and counter as they were |
| VideoRepository.PushIfDefined | backend/src/modules/videos/videoRepository.ts:173-196 | one `if (field !== undefined)` step takes the builder state after k tests to the state after k+1 |
| VideoRepository.BuildUpdate | backend/src/modules/videos/videoRepository.ts:169-205 | no statement when no field is set, otherwise the numbered UPDATE with its values |
| VideoRepository.ApplyPatch | backend/src/modules/videos/videoRepository.ts:198-207 | a patched row still has every column |
| VideoRepository.UpdateApplied | backend/src/modules/videos/videoRepository.ts:198-207 | running the built SET clauses against a row gives the row with exactly the defined fields overwritten |
| VideoRepository.ApplyEmptyPatch | backend/src/modules/videos/videoRepository.ts:198 | with no field set the row is unchanged |
| VideoRepository.ReplaceGenresExactly | backend/src/modules/videos/videoRepository.ts:213-233 | after delete-and-insert the video's genres are exactly the listed ones, duplicates absorbed; other videos keep theirs |
| VideoRepository.GenresOfAdded | backend/src/modules/videos/videoRepository.ts:130-141 | inserting the links adds exactly the listed genres to the video |
| VideoRepository.InsertedRow | backend/src/modules/videos/videoRepository.ts:102-125 | the inserted row has every column |
| VideoRepository.InsertedIsPatchedNulls | backend/src/modules/videos/videoRepository.ts:102-125 | the inserted row is an all-null row patched with the given fields: omitted optional fields default to null |
| VideoRepository.VideoTable.constructor | backend/src/modules/videos/videoRepository.ts:112-116 | the empty database the inserts start from: no video rows, no genre links, and the serial id that the INSERT's `RETURNING id` reports starting at 1 |
| VideoRepository.VideoTable.Stored | backend/src/modules/videos/videoRepository.ts:56-86 | `getVideoById` finds a video exactly when a row has that id; it returns that row's columns, which are complete in a valid table, and exactly the genres linked to the video |
| VideoRepository.VideoTable.NoLinksWithoutRow | backend/src/modules/videos/videoRepository.ts:239-241 | a video with no row has no genre links |
| VideoRepository.VideoTable.RunUpdate | backend/src/modules/videos/videoRepository.ts:198-210 | the UPDATE matches exactly when the WHERE value is an existing id; only that row changes, by its SET clauses |
| VideoRepository.VideoTable.DeleteGenreLinks | backend/src/modules/videos/videoRepository.ts:217-219 | every link of the video is removed and nothing else changes |
| VideoRepository.VideoTable.InsertGenreLinks | backend/src/modules/videos/videoRepository.ts:221-232 | the links are added, or the foreign key refuses them when the video has no row |
| VideoRepository.VideoTable.CreateVideo | backend/src/modules/videos/videoRepository.ts:93-150 | the next serial id gets the defaulted row, the listed genres are linked, and the returned video is that row with those genres |
| VideoRepository.VideoTable.UpdateVideo | backend/src/modules/videos/videoRepository.ts:157-237 | for an existing id, the row is patched, genres are replaced when a list is given (even an empty one), and the stored video is returned; for a missing id nothing changes and the result is null, or a foreign-key error when only a non-empty genre list was given |
| VideoStorage.StorageModeOf | backend/src/modules/videos/videoStorageService.ts:13-16 | MinIO mode exactly when the setting is the exact text `minio` |
| VideoStorage.PortFollowsProtocol | backend/src/modules/videos/videoStorageService.ts:38-44 | with no explicit port: 443 exactly when SSL is on (`https:`), 80 exactly when it is off; an explicit port is used as given |
| VideoStorage.DefaultEndpointSettings | backend/src/modules/videos/videoStorageService.ts:22-44 | the default endpoint gives port 9000 without SSL |
| VideoStorage.Configure | backend/src/modules/videos/videoStorageService.ts:13-55 | loading fails, with the stated message, exactly in MinIO mode with a missing access key, secret key or bucket; otherwise the mode is the chosen one and MinIO settings exist exactly in MinIO mode; those settings are the endpoint's hostname, its port (explicit, else 443 for `https:`, else 80), TLS exactly for `https:`, with `http://localhost:9000` when no endpoint is set, and the given access key, secret key and non-empty bucket |
| VideoStorage.StreamPathRoundTrip | backend/src/modules/videos/videoStorageService.ts:67-68 | the stream path of a video routes back to that video's identifier |
| VideoStorage.StreamLink | backend/src/modules/videos/videoStorageService.ts:64-83 | fails with "MinIO client is not configured" exactly in MinIO mode without a client or bucket; otherwise a server path exactly in filesystem mode, else a link presigned on the bucket for the video's stored path, expiring after one hour |
| VideoStorage.StreamLinkTarget | backend/src/modules/videos/videoStorageService.ts:64-83 | filesystem mode links to the stream route of that video; MinIO mode presigns the video path for 3600 seconds |
| VideoStorage.ThumbnailLink | backend/src/modules/videos/videoStorageService.ts:89-113 | fails with "MinIO client is not configured" exactly for a set thumbnail in MinIO mode without a client or bucket; otherwise a link exactly when the thumbnail is set and non-empty, a server path exactly in filesystem mode, else presigned on the bucket for the stored thumbnail path for one hour |
| VideoStorage.ThumbnailLinkPresence | backend/src/modules/videos/videoStorageService.ts:89-99 | there is no thumbnail link exactly when the thumbnail is null or empty; in filesystem mode it is `/media/` followed by the stored path |
| VideoStorage.ConfiguredLinksResolve | backend/src/modules/videos/videoStorageService.ts:64-113 | once loading succeeded, "MinIO client is not configured" cannot occur |
| VideoStorage.ReplaceWhitespaceRuns | backend/src/modules/videos/videoStorageService.ts:184 | the cleaned name contains no whitespace |
| VideoStorage.ReplaceWithoutWhitespace | backend/src/modules/videos/videoStorageService.ts:184 | a name without whitespace is unchanged |
| VideoStorage.ReplaceIdempotent | backend/src/modules/videos/videoStorageService.ts:184 | cleaning twice is cleaning once |
| VideoStorage.WhitespaceRunBecomesUnderscore | backend/src/modules/videos/videoStorageService.ts:184 | each maximal run of whitespace becomes exactly one `_`, the rest being kept |
| VideoStorage.StripTrailingSlashes | backend/src/modules/videos/videoStorageService.ts:185-188 | the result is a prefix of the path and does not end in `/` |
| VideoStorage.AfterLastSlash | backend/src/modules/videos/videoStorageService.ts:185-188 | the result is a suffix of the path without `/` |
| VideoStorage.LastDot | backend/src/modules/videos/videoStorageService.ts:187 | a found index is in range and holds a `.` |
| VideoStorage.Extname | backend/src/modules/videos/videoStorageService.ts:187 | the extension is empty or starts with `.`, and is a proper suffix of the base name |
| VideoStorage.StemAndExtension | backend/src/modules/videos/videoStorageService.ts:185-188 | base name without extension, followed by the extension, is the base name; a non-empty extension leaves a non-empty stem |
| VideoStorage.BasenameOfSegment | backend/src/modules/videos/videoStorageService.ts:185-188 | a name without `/` is its own base name |
| VideoStorage.KeysShareStem | backend/src/modules/videos/videoStorageService.ts:184-192 | the video key is `uploads/<ts>_<stem><ext>` and the thumbnail key is `thumbnails/<ts>_<stem>.jpg`, with the same timestamp and stem |
| VideoStorage.ThumbnailKeyIsJpeg | backend/src/modules/videos/videoStorageService.ts:192 | the thumbnail key's extension is `.jpg` for every uploaded name |
| VideoStorage.UploadPaths | backend/src/modules/videos/videoStorageService.ts:180-246 | fails with "MinIO client is not configured" exactly in MinIO mode without a client or bucket; otherwise returns the video key and the thumbnail key derived from the name and the one timestamp |
| VideoStorage.UploadPathsIndependentOfMode | backend/src/modules/videos/videoStorageService.ts:199-245 | both storage modes return the same video and thumbnail paths for the same upload |
| AdminVideoForm.PartNumbers | frontend/src/pages/admin/AdminVideoFormPage.tsx:77-82 | one number per part, the `Number` of the trimmed part |
| AdminVideoForm.KeepNumbers | frontend/src/pages/admin/AdminVideoFormPage.tsx:79-89 | no more identifiers than parts |
| AdminVideoForm.ParseGenreIdentifiers | frontend/src/pages/admin/AdminVideoFormPage.tsx:70-90 | the loop returns the identifiers `GenreIdentifiersOf` describes |
| AdminVideoForm.KeepSnoc | frontend/src/pages/admin/AdminVideoFormPage.tsx:81-87 | one loop step appends the part's value exactly when it is not NaN |
| AdminVideoForm.BlankGivesUndefined | frontend/src/pages/admin/AdminVideoFormPage.tsx:71-75 | the result is undefined exactly when the input is empty or all whitespace |
| AdminVideoForm.KeepConcat | frontend/src/pages/admin/AdminVideoFormPage.tsx:79-89 | kept values keep input order across concatenation |
| AdminVideoForm.KeepOne | frontend/src/pages/admin/AdminVideoFormPage.tsx:84-86 | a single NaN is dropped and a single number is kept |
| AdminVideoForm.KeepAllNumbers | frontend/src/pages/admin/AdminVideoFormPage.tsx:79-89 | when no value is NaN, all are kept, in order |
| AdminVideoForm.KeepPartNumbers | frontend/src/pages/admin/AdminVideoFormPage.tsx:77-89 | dropping the NaN numbers of the trimmed parts leaves exactly the values of the parts that are digit strings, in order |
| AdminVideoForm.NonBlankKeepsDigitParts | frontend/src/pages/admin/AdminVideoFormPage.tsx:71-89 | for a non-blank input the result is, in order, the values of the trimmed comma-separated parts that are digit strings (an empty part counting as 0); every other part is dropped |
| AdminVideoForm.GenreListRoundTrip | frontend/src/pages/admin/AdminVideoFormPage.tsx:70-90 | a non-empty list of identifiers typed as `1,2,3` is read back as that list |
| AdminVideoForm.AllDigitPartsKept | frontend/src/pages/admin/AdminVideoFormPage.tsx:77-89 | when every trimmed part is a digit string, the identifiers are their values, one per part, in order |
| AdminVideoForm.DigitPartsAreNumbers | frontend/src/pages/admin/AdminVideoFormPage.tsx:77-82 | digit parts convert to their decimal values |
| AdminVideoForm.SubmitChecks | frontend/src/pages/admin/AdminVideoFormPage.tsx:95-103 | "You must be logged in as an admin." exactly without a token; "Title and video path are required." exactly with a token and an empty title or path; a request exactly otherwise |
| AdminVideoForm.SentRequestShape | frontend/src/pages/admin/AdminVideoFormPage.tsx:109-133 | an update for `Number(videoId)` exactly in edit mode, else a create; empty description, thumbnail, age rating and release year are sent as null, filled ones as typed, and a filled release year as `Number(releaseYear)`; title, path and genre identifiers are passed through |
| AdminVideoForm.BuildPayload | frontend/src/pages/admin/AdminVideoFormPage.tsx:109-121 | the payload is `PayloadOf(fields)` |
| AdminVideoForm.AdminVideoFormPage.constructor | frontend/src/pages/admin/AdminVideoFormPage.tsx:19-29 | empty fields, not submitting, no error, nothing sent |
| AdminVideoForm.AdminVideoFormPage.Edit | frontend/src/pages/admin/AdminVideoFormPage.tsx:19-25 | the setters change the form fields and nothing else |
| AdminVideoForm.AdminVideoFormPage.HandleSubmit | frontend/src/pages/admin/AdminVideoFormPage.tsx:92-142 | on a failed check, the check's message is set and no request is sent; otherwise exactly one request is sent, then either navigation to `/admin/videos` with no error, or the save-failed message; submitting is cleared |

## Left out

- The file system and streams: `fs.existsSync`, `statSync`, `createReadStream`, the pipe and its error logging. The file's existence is a parameter and its contents are a byte sequence.
- The handler's `try`/`catch` (backend/src/routes/videoRoutes.ts:81-83) is not modelled. Node's `createReadStream` throws when `start` or `end` is NaN (the `NotANumber` outcome) and when `start > end` (an inverted range). The catch then calls `sendStatus(500)` after `writeHead(206)` has already been sent, which throws again. The model stops at the 206 head and an empty body for both cases; the throw, the failed 500 and what Express then does with the connection are left out.
- I/O failures of the file system, also caught there, are left out with the file system.
- Common.ParseNumber, Common.NatToString: JavaScript numbers are IEEE doubles. Digit strings above 2^53 lose precision, and `String(n)` switches to exponent notation from 1e21. The model uses exact unbounded integers, so a huge `bytes=` bound or genre identifier is exact here.
- `Number()` beyond decimal digit strings: signs, decimals, exponents, hexadecimal, surrounding whitespace, `Infinity`. The model gives NaN for all of them, so `"-3"` is NaN here although it is -3 in JavaScript. JSON serialisation of NaN is not modelled.
- The media directory and the route's `videoId`. The handler always serves `sample.mp4`, so the identifier does not enter the model.
- The URL parser for `MINIO_ENDPOINT`: the parsed protocol, host name and port are taken as input.
- The MinIO client, presigning, `putObject`, ffmpeg thumbnail generation, temporary files and directory creation. A presigned link is represented by its bucket, key and expiry.
- `Date.now()`: the timestamp is a parameter.
- The SQL driver and the `getVideoById` join. Stored videos carry genre identifiers rather than the aggregated genre names, and the order of genres is not modelled.
- The `genres` table and the foreign key from links to it. A listed genre that does not exist is linked in the model.
- The foreign key from links to videos is taken from the cascade note at videoRepository.ts:240.
- VideoRepository.VideoTable.CreateVideo: the "Failed to fetch inserted video" error cannot happen in the model, because the inserted row is always found.
- The React page around the form: rendering, `isLoading`, loading an existing video, file upload (`handleFileUpload`) and the HTTP calls. Success or failure of the save call is a parameter.
- `getAllVideos`, `getVideoById` and `deleteVideo` are query text with no logic beyond row mapping; row mapping is modelled.
- Concurrency across simultaneous requests: there is no shared state.
