/**
 * The admin video form: how the comma-separated genre field is read, what
 * a submit checks and sends, and how the page's state changes on submit.
 *
 * The request itself (`createAdminVideo` / `updateAdminVideo`) is not run:
 * the method records the request it sends and takes whether the save
 * succeeded as a parameter.
 */
module AdminVideoForm {
  import opened Common

  // ---------------------------------------------------------------------------
  // parseGenreIdentifiers

  /** `parts.map(part => part.trim())`, then `Number` of each part. */
  function PartNumbers(parts: seq<string>): (values: seq<Num>)
    ensures |values| == |parts|
    ensures forall j :: 0 <= j < |parts| ==> values[j] == ParseNumber(Trim(parts[j]))
  {
    seq(|parts|, j requires 0 <= j < |parts| => ParseNumber(Trim(parts[j])))
  }

  /** The numbers that are not NaN, in order. */
  function KeepNumbers(values: seq<Num>): (kept: seq<int>)
    ensures |kept| <= |values|
  {
    if values == [] then []
    else
      var last := values[|values| - 1];
      KeepNumbers(values[..|values| - 1]) + (if last.Int? then [last.v] else [])
  }

  /**
   * What `parseGenreIdentifiers` returns: `undefined` for blank input,
   * otherwise the numbers of the trimmed comma-separated parts.
   */
  function GenreIdentifiersOf(input: string): Option<seq<int>>
  {
    var trimmed := Trim(input);
    if trimmed == "" then None else Some(KeepNumbers(PartNumbers(Split(trimmed, ','))))
  }

  /** `parseGenreIdentifiers`: the loop over the trimmed parts, pushing each value that is not NaN. */
  method ParseGenreIdentifiers(input: string) returns (identifiers: Option<seq<int>>)
    ensures identifiers == GenreIdentifiersOf(input)
  {
    var trimmed := Trim(input);
    if trimmed == "" {
      return None;
    }
    var parts := Split(trimmed, ',');
    ghost var values := PartNumbers(parts);
    var pushed: seq<int> := [];
    var i := 0;
    while i < |parts|
      invariant 0 <= i <= |parts|
      invariant pushed == KeepNumbers(values[..i])
    {
      var value := ParseNumber(Trim(parts[i]));
      assert values[i] == value;
      KeepSnoc(values, i);
      if value.Int? {
        pushed := pushed + [value.v];
      }
      i := i + 1;
    }
    assert values[..|parts|] == values;
    identifiers := Some(pushed);
  }

  /** Looking at one more value keeps it when it is a number. */
  lemma KeepSnoc(values: seq<Num>, i: nat)
    requires i < |values|
    ensures KeepNumbers(values[..i + 1])
            == KeepNumbers(values[..i]) + (if values[i].Int? then [values[i].v] else [])
  {
    assert values[..i + 1][..i] == values[..i];
  }

  /** Blank input, and only blank input, gives `undefined`. */
  lemma BlankGivesUndefined(input: string)
    ensures GenreIdentifiersOf(input).None? <==> AllWhitespace(input)
  {
    TrimEmpty(input);
  }

  /** Keeping the numbers of two lists one after the other is keeping them together: order is kept. */
  lemma {:induction false} KeepConcat(a: seq<Num>, b: seq<Num>)
    ensures KeepNumbers(a + b) == KeepNumbers(a) + KeepNumbers(b)
    decreases |b|
  {
    if b == [] {
      assert a + b == a;
    } else {
      var init := b[..|b| - 1];
      assert (a + b)[..|a + b| - 1] == a + init;
      KeepConcat(a, init);
    }
  }

  /** A NaN contributes nothing; a number contributes itself. */
  lemma KeepOne(value: Num)
    ensures KeepNumbers([value]) == if value.NaN? then [] else [value.v]
  {
    assert [value][..0] == [];
  }

  /** When no value is NaN, every value is kept, in place. */
  lemma {:induction false} KeepAllNumbers(values: seq<Num>)
    requires forall j :: 0 <= j < |values| ==> values[j].Int?
    ensures |KeepNumbers(values)| == |values|
    ensures forall j :: 0 <= j < |values| ==> KeepNumbers(values)[j] == values[j].v
    decreases |values|
  {
    if values != [] {
      KeepAllNumbers(values[..|values| - 1]);
    }
  }

  /**
   * The identifiers the genre field means, stated on the parts themselves:
   * in order, the value of each part that is a digit string once trimmed
   * (an empty part is 0, as `Number("")` is), and nothing for any other part.
   */
  function DigitPartValues(parts: seq<string>): seq<int>
  {
    if parts == [] then []
    else
      var part := Trim(parts[0]);
      (if IsDigits(part) then [DigitsValue(part)] else []) + DigitPartValues(parts[1..])
  }

  /** Keeping the non-NaN numbers of the parts keeps exactly the values of the digit parts. */
  lemma {:induction false} KeepPartNumbers(parts: seq<string>)
    ensures KeepNumbers(PartNumbers(parts)) == DigitPartValues(parts)
    decreases |parts|
  {
    if parts != [] {
      var values := PartNumbers(parts);
      assert values == [values[0]] + PartNumbers(parts[1..]);
      KeepConcat([values[0]], PartNumbers(parts[1..]));
      KeepOne(values[0]);
      KeepPartNumbers(parts[1..]);
    }
  }

  /**
   * Input that is not blank gives, in order, the values of its trimmed
   * comma-separated parts that are digit strings; the other parts are dropped.
   */
  lemma NonBlankKeepsDigitParts(input: string)
    requires !AllWhitespace(input)
    ensures GenreIdentifiersOf(input) == Some(DigitPartValues(Split(Trim(input), ',')))
  {
    TrimEmpty(input);
    KeepPartNumbers(Split(Trim(input), ','));
  }

  /** The decimal texts of some identifiers. */
  function IdentifierTexts(identifiers: seq<nat>): (texts: seq<string>)
    ensures |texts| == |identifiers|
    ensures forall j :: 0 <= j < |texts| ==> texts[j] == NatToString(identifiers[j])
  {
    seq(|identifiers|, j requires 0 <= j < |identifiers| => NatToString(identifiers[j]))
  }

  /** A joined list starts with its first piece's first character and ends with its last piece's last. */
  lemma {:induction false} JoinEnds(parts: seq<string>)
    requires |parts| >= 1 && forall j :: 0 <= j < |parts| ==> parts[j] != []
    ensures var text := Join(parts, ',');
            && text != []
            && text[0] == parts[0][0]
            && text[|text| - 1] == parts[|parts| - 1][|parts[|parts| - 1]| - 1]
    decreases |parts|
  {
    if |parts| > 1 {
      JoinEnds(parts[1..]);
    }
  }

  /** A digit string has no whitespace at its ends and is its own trim. */
  lemma DigitTextTrimmed(text: string)
    requires text != [] && IsDigits(text)
    ensures Trim(text) == text
  {
    assert IsDigit(text[0]) && IsDigit(text[|text| - 1]);
    TrimNoop(text);
  }

  lemma {:induction false} IdentifierTextValues(identifiers: seq<nat>)
    ensures DigitPartValues(IdentifierTexts(identifiers)) == identifiers
    decreases |identifiers|
  {
    if identifiers != [] {
      var texts := IdentifierTexts(identifiers);
      assert texts[1..] == IdentifierTexts(identifiers[1..]);
      DigitTextTrimmed(texts[0]);
      NatToStringRoundTrip(identifiers[0]);
      IdentifierTextValues(identifiers[1..]);
    }
  }

  /**
   * Identifiers typed as a comma-separated list are read back as those
   * identifiers, in order.
   */
  lemma GenreListRoundTrip(identifiers: seq<nat>)
    requires |identifiers| >= 1
    ensures GenreIdentifiersOf(Join(IdentifierTexts(identifiers), ',')) == Some(identifiers)
  {
    var texts := IdentifierTexts(identifiers);
    var text := Join(texts, ',');
    JoinEnds(texts);
    assert IsDigit(text[0]) && IsDigit(text[|text| - 1]);
    TrimNoop(text);
    assert !AllWhitespace(text) by {
      assert !IsWhitespace(text[0]);
    }
    NonBlankKeepsDigitParts(text);
    forall j | 0 <= j < |texts|
      ensures ',' !in texts[j]
    {
      DigitsExclude(texts[j], ',');
    }
    SplitJoin(texts, ',');
    IdentifierTextValues(identifiers);
  }

  /**
   * Parts that are all strings of digits once trimmed give one identifier
   * per part, each the value of its part, in order.
   */
  lemma AllDigitPartsKept(parts: seq<string>)
    requires forall j :: 0 <= j < |parts| ==> IsDigits(Trim(parts[j]))
    ensures |KeepNumbers(PartNumbers(parts))| == |parts|
    ensures forall j :: 0 <= j < |parts| ==> KeepNumbers(PartNumbers(parts))[j] == DigitsValue(Trim(parts[j]))
  {
    DigitPartsAreNumbers(parts);
    KeepAllNumbers(PartNumbers(parts));
  }

  lemma DigitPartsAreNumbers(parts: seq<string>)
    requires forall j :: 0 <= j < |parts| ==> IsDigits(Trim(parts[j]))
    ensures forall j :: 0 <= j < |parts| ==> PartNumbers(parts)[j] == Int(DigitsValue(Trim(parts[j])))
  {
  }

  // ---------------------------------------------------------------------------
  // handleSubmit

  /** The text inputs of the form. */
  datatype FormFields = FormFields(
    title: string,
    description: string,
    thumbnailUrl: string,
    videoPath: string,
    releaseYear: string,
    ageRating: string,
    genreIdentifiersText: string)

  const EmptyFields: FormFields := FormFields("", "", "", "", "", "", "")

  /** The body sent to the admin API. */
  datatype VideoPayload = VideoPayload(
    title: string,
    description: Option<string>,
    thumbnailUrl: Option<string>,
    videoPath: string,
    releaseYear: Option<Num>,
    ageRating: Option<string>,
    genreIdentifiers: Option<seq<int>>)

  datatype AdminRequest = UpdateVideo(videoIdentifier: Num, payload: VideoPayload) | CreateVideo(payload: VideoPayload)

  const NotLoggedIn: string := "You must be logged in as an admin."
  const FieldsRequired: string := "Title and video path are required."
  const SaveFailed: string := "Failed to save video. Check console for details."
  const VideoListPath: string := "/admin/videos"

  /** `value || null` on a text input: the empty text is null. */
  function OrNull(value: string): Option<string>
  {
    if value == "" then None else Some(value)
  }

  /** The payload built from the fields. */
  function PayloadOf(fields: FormFields): VideoPayload
  {
    VideoPayload(
      fields.title,
      OrNull(fields.description),
      OrNull(fields.thumbnailUrl),
      fields.videoPath,
      if fields.releaseYear == "" then None else Some(ParseNumber(fields.releaseYear)),
      OrNull(fields.ageRating),
      GenreIdentifiersOf(fields.genreIdentifiersText))
  }

  /**
   * What a submit does, in order: no token is refused, then a missing title
   * or video path; otherwise an update of `Number(videoId)` in edit mode, or
   * a create.
   */
  function SubmitRequest(token: Option<string>, videoId: Option<string>, fields: FormFields): Result<AdminRequest, string>
  {
    if token.None? || token.value == "" then Err(NotLoggedIn)
    else if fields.title == "" || fields.videoPath == "" then Err(FieldsRequired)
    else if videoId.Some? && videoId.value != "" then Ok(UpdateVideo(ParseNumber(videoId.value), PayloadOf(fields)))
    else Ok(CreateVideo(PayloadOf(fields)))
  }

  /**
   * A submit is refused without a token whatever the fields hold, is
   * refused for a missing title or path only with a token, and otherwise
   * sends a request.
   */
  lemma SubmitChecks(token: Option<string>, videoId: Option<string>, fields: FormFields)
    ensures SubmitRequest(token, videoId, fields) == Err(NotLoggedIn) <==> token.None? || token == Some("")
    ensures SubmitRequest(token, videoId, fields) == Err(FieldsRequired)
            <==> token.Some? && token.value != "" && (fields.title == "" || fields.videoPath == "")
    ensures SubmitRequest(token, videoId, fields).Ok?
            <==> token.Some? && token.value != "" && fields.title != "" && fields.videoPath != ""
  {
  }

  /**
   * A sent request updates exactly in edit mode, the video named by the
   * route; an empty optional text is sent as null and a filled one as typed.
   */
  lemma SentRequestShape(token: Option<string>, videoId: Option<string>, fields: FormFields)
    requires SubmitRequest(token, videoId, fields).Ok?
    ensures var request := SubmitRequest(token, videoId, fields).value;
            && (request.UpdateVideo? <==> videoId.Some? && videoId.value != "")
            && (request.UpdateVideo? ==> request.videoIdentifier == ParseNumber(videoId.value))
            && request.payload.title == fields.title && request.payload.videoPath == fields.videoPath
            && (request.payload.description.None? <==> fields.description == "")
            && (request.payload.thumbnailUrl.None? <==> fields.thumbnailUrl == "")
            && (request.payload.ageRating.None? <==> fields.ageRating == "")
            && (request.payload.releaseYear.None? <==> fields.releaseYear == "")
            && (request.payload.description.Some? ==> request.payload.description.value == fields.description)
            && (request.payload.thumbnailUrl.Some? ==> request.payload.thumbnailUrl.value == fields.thumbnailUrl)
            && (request.payload.ageRating.Some? ==> request.payload.ageRating.value == fields.ageRating)
            && (fields.releaseYear != "" ==> request.payload.releaseYear == Some(ParseNumber(fields.releaseYear)))
            && request.payload.genreIdentifiers == GenreIdentifiersOf(fields.genreIdentifiersText)
  {
  }

  /** The payload `handleSubmit` builds, parsing the release year and the genre list. */
  method BuildPayload(fields: FormFields) returns (payload: VideoPayload)
    ensures payload == PayloadOf(fields)
  {
    var parsedReleaseYear := if fields.releaseYear == "" then None else Some(ParseNumber(fields.releaseYear));
    var genreIdentifiers := ParseGenreIdentifiers(fields.genreIdentifiersText);
    payload := VideoPayload(fields.title, OrNull(fields.description), OrNull(fields.thumbnailUrl),
                            fields.videoPath, parsedReleaseYear, OrNull(fields.ageRating), genreIdentifiers);
  }

  /** The admin video form page: its route parameter and token, its inputs and what it has done. */
  class AdminVideoFormPage {
    const videoId: Option<string>
    const token: Option<string>
    var fields: FormFields
    var isSubmitting: bool
    var errorMessage: Option<string>
    /** The requests sent to the admin API, oldest first. */
    var sent: seq<AdminRequest>
    /** Where the page navigated to, if anywhere. */
    var location: Option<string>

    constructor (videoId: Option<string>, token: Option<string>)
      ensures this.videoId == videoId && this.token == token
      ensures fields == EmptyFields && !isSubmitting && errorMessage == None
      ensures sent == [] && location == None
    {
      this.videoId := videoId;
      this.token := token;
      fields := EmptyFields;
      isSubmitting := false;
      errorMessage := None;
      sent := [];
      location := None;
    }

    /** The inputs' change handlers. */
    method Edit(newFields: FormFields)
      modifies this
      ensures fields == newFields
      ensures isSubmitting == old(isSubmitting) && errorMessage == old(errorMessage)
      ensures sent == old(sent) && location == old(location)
    {
      fields := newFields;
    }

    /**
     * `handleSubmit`: a refused submit shows its message and sends nothing;
     * otherwise the request is sent once, and the page goes to the video
     * list when the save succeeds or shows the failure message when it does
     * not; the submitting flag ends cleared.
     */
    method HandleSubmit(saveSucceeds: bool)
      modifies this
      ensures fields == old(fields)
      ensures match SubmitRequest(token, videoId, old(fields))
              case Err(message) =>
                && errorMessage == Some(message)
                && sent == old(sent) && location == old(location) && isSubmitting == old(isSubmitting)
              case Ok(request) =>
                && sent == old(sent) + [request]
                && !isSubmitting
                && (saveSucceeds ==> location == Some(VideoListPath) && errorMessage == None)
                && (!saveSucceeds ==> location == old(location) && errorMessage == Some(SaveFailed))
    {
      if token.None? || token.value == "" {
        errorMessage := Some(NotLoggedIn);
        return;
      }
      if fields.title == "" || fields.videoPath == "" {
        errorMessage := Some(FieldsRequired);
        return;
      }
      isSubmitting := true;
      errorMessage := None;
      var payload := BuildPayload(fields);
      var request;
      if videoId.Some? && videoId.value != "" {
        request := UpdateVideo(ParseNumber(videoId.value), payload);
      } else {
        request := CreateVideo(payload);
      }
      sent := sent + [request];
      if saveSucceeds {
        location := Some(VideoListPath);
      } else {
        errorMessage := Some(SaveFailed);
      }
      isSubmitting := false;
    }
  }
}
