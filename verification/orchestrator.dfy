/** `get_username_from_video`: the two-pass extraction. The end card (last
    frame) is read first; only when it yields no verified handle is the
    floating watermark in the first frame read instead. */
module Orchestrator {
  import opened Wrappers
  import opened Frames
  import opened Normalizer
  import opened Verifier

  /** What the outside world answers during one extraction. Each field stands
      for a foreign process or library the source calls. */
  datatype Media = Media(
    fetched: bool,                   // yt-dlp exited with status 0 within 10 seconds
    packetCount: Option<int>,        // ffprobe's packet count, parsed by int(); None when either fails
    frameAt: int -> Option<Image>,   // ffmpeg selecting frame n; None when no image comes back
    firstFrame: Option<Image>,       // ffmpeg decoding the first frame; None when no image comes back
    ocr: Image -> seq<string>,       // easyocr's paragraphs for an image, in detection order
    status: string -> int)           // the HTTP status answered for a URL

  /** The exceptions that abort an extraction. */
  datatype Failure =
    | DownloadFailed
    | ProbeFailed
    | NoImageData
    | StatusError(code: int)

  /** The pair `(username, sure)` the source returns. */
  datatype Extraction = Extraction(username: Option<string>, sure: bool)

  /** `last_frame`: probe the packet count, then decode the frame before it. */
  function LastFrame(m: Media): (r: Result<Image, Failure>)
    ensures m.packetCount.None? ==> r == Failure(ProbeFailed)
    ensures m.packetCount.Some? ==>
              var n := m.packetCount.value;
              (r.Success? <==> m.frameAt(n - 1).Some?)
              && (r.Success? ==> m.frameAt(n - 1) == Some(r.value))
              && (r.Failure? ==> r.error == NoImageData)
  {
    match m.packetCount
    case None => Failure(ProbeFailed)
    case Some(n) =>
      match m.frameAt(LastFrameIndex(n))
      case None => Failure(NoImageData)
      case Some(img) => Success(img)
  }

  /** The handle read off the end card, when the video could be decoded. */
  function EndCardCandidate(m: Media): Result<Option<string>, Failure>
  {
    match LastFrame(m)
    case Failure(e) => Failure(e)
    case Success(img) => Success(Username(m.ocr(PreprocessLastFrame(img))))
  }

  /** The handle read off the cropped first frame. */
  function WatermarkCandidate(m: Media): Result<Option<string>, Failure>
  {
    match m.firstFrame
    case None => Failure(NoImageData)
    case Some(img) => Success(Username(m.ocr(PreprocessFirstFrame(img))))
  }

  function FromStatus(e: Existence, ifExists: Extraction, ifNot: Extraction): Result<Extraction, Failure>
  {
    match e
    case Exists => Success(ifExists)
    case NotExists => Success(ifNot)
    case Unexpected(c) => Failure(StatusError(c))
  }

  /** The degraded pass as written: the lookup is made for whatever
      `clean_text` returned, `None` included. */
  function WatermarkPass(m: Media): Result<Extraction, Failure>
  {
    match WatermarkCandidate(m)
    case Failure(e) => Failure(e)
    case Success(t2) =>
      FromStatus(UserExists(m.status, Interpolate(t2)), Extraction(t2, false), Extraction(None, false))
  }

  /** Download, then the end-card pass; `fallback` is what the watermark pass
      gives, used when the end card yields no verified handle. */
  function Orchestrate(m: Media, fallback: Result<Extraction, Failure>): Result<Extraction, Failure>
  {
    if !m.fetched then Failure(DownloadFailed)
    else match EndCardCandidate(m)
      case Failure(e) => Failure(e)
      case Success(None) => fallback
      case Success(Some(t1)) =>
        match UserExists(m.status, t1)
        case Exists => Success(Extraction(Some(t1), true))
        case NotExists => fallback
        case Unexpected(c) => Failure(StatusError(c))
  }

  /** What `get_username_from_video` returns or raises. */
  function ExtractUsername(m: Media): (r: Result<Extraction, Failure>)
    ensures !m.fetched ==> r == Failure(DownloadFailed)
    ensures r.Success? && r.value.sure ==>
              r.value.username.Some? && EndCardCandidate(m) == Success(r.value.username)
    ensures r.Success? && !r.value.sure ==> m.firstFrame.Some?
  {
    Orchestrate(m, WatermarkPass(m))
  }

  /** The steps of `get_username_from_video`, reassigning `img` and `text`. */
  method GetUsernameFromVideo(m: Media) returns (r: Result<Extraction, Failure>)
    ensures r == ExtractUsername(m)
  {
    if !m.fetched {
      return Failure(DownloadFailed);
    }
    var frame := LastFrame(m);
    if frame.Failure? {
      return Failure(frame.error);
    }
    var img := PreprocessLastFrame(frame.value);
    var text := CleanText(m.ocr(img));
    var found := false;
    if text.Some? {
      var e := UserExists(m.status, text.value);
      if e.Unexpected? {
        return Failure(StatusError(e.code));
      }
      found := e == Exists;
    }
    if !found {
      if m.firstFrame.None? {
        return Failure(NoImageData);
      }
      img := PreprocessFirstFrame(m.firstFrame.value);
      text := CleanText(m.ocr(img));
      var e := UserExists(m.status, Interpolate(text));
      if e.Unexpected? {
        return Failure(StatusError(e.code));
      }
      if e == Exists {
        return Success(Extraction(text, false));
      }
      return Success(Extraction(None, false));
    }
    return Success(Extraction(text, true));
  }

  /** `sure` comes only from the end card: its handle was read there and the
      lookup said it exists. */
  lemma SureOnlyFromEndCard(m: Media)
    requires ExtractUsername(m).Success? && ExtractUsername(m).value.sure
    ensures m.fetched
    ensures var u := ExtractUsername(m).value.username;
            u.Some? && EndCardCandidate(m) == Success(u) && UserExists(m.status, u.value) == Exists
  {
  }

  /** A verified end-card handle is returned as sure, and the first frame is
      then never consulted: any other first frame gives the same answer. */
  lemma VerifiedEndCardSkipsFirstFrame(m: Media, t1: string, other: Option<Image>)
    requires m.fetched && EndCardCandidate(m) == Success(Some(t1))
    requires UserExists(m.status, t1) == Exists
    ensures ExtractUsername(m) == Success(Extraction(Some(t1), true))
    ensures ExtractUsername(m.(firstFrame := other)) == ExtractUsername(m)
  {
  }

  /** When the end card yields nothing or an unknown handle, the answer is the
      watermark's: its handle if the lookup confirms it, otherwise no handle;
      never `sure`. */
  lemma FallbackOutcome(m: Media)
    requires m.fetched && EndCardCandidate(m).Success?
    requires var t1 := EndCardCandidate(m).value;
             t1.None? || UserExists(m.status, t1.value) == NotExists
    ensures ExtractUsername(m) == WatermarkPass(m)
    ensures WatermarkCandidate(m).Success? ==>
              var t2 := WatermarkCandidate(m).value;
              match UserExists(m.status, Interpolate(t2))
              case Exists => ExtractUsername(m) == Success(Extraction(t2, false))
              case NotExists => ExtractUsername(m) == Success(Extraction(None, false))
              case Unexpected(c) => ExtractUsername(m) == Failure(StatusError(c))
  {
  }

  /** A handle that is returned has passed the lookup and is a token. */
  lemma ReturnedUsernameVerified(m: Media)
    requires ExtractUsername(m).Success? && ExtractUsername(m).value.username.Some?
    ensures var u := ExtractUsername(m).value.username.value;
            UserExists(m.status, u) == Exists && IsToken(u)
  {
  }

  /** A status other than 200 or 404 on the end-card lookup aborts the
      extraction with that status; it is never read as "not found". */
  lemma EndCardStatusErrorPropagates(m: Media, t1: string)
    requires m.fetched && EndCardCandidate(m) == Success(Some(t1))
    requires UserExists(m.status, t1).Unexpected?
    ensures ExtractUsername(m) == Failure(StatusError(m.status(ProfileUrl(t1))))
  {
  }

  /** A failed probe or end-card decode aborts the extraction with that
      failure; the first frame is not tried. */
  lemma EndCardDecodeFailureAborts(m: Media)
    requires m.fetched && LastFrame(m).Failure?
    ensures ExtractUsername(m) == Failure(LastFrame(m).error)
    ensures ExtractUsername(m.(firstFrame := None)) == ExtractUsername(m)
  {
  }

  /** On the fallback path a first frame that cannot be decoded aborts the
      extraction. */
  lemma WatermarkDecodeFailureAborts(m: Media)
    requires m.fetched && EndCardCandidate(m).Success?
    requires var t1 := EndCardCandidate(m).value;
             t1.None? || UserExists(m.status, t1.value) == NotExists
    requires m.firstFrame.None?
    ensures ExtractUsername(m) == Failure(NoImageData)
  {
  }

  /** Whenever the watermark pass is reached and yields no handle, the source
      still looks up the rendering of `None`, a URL that is no candidate's
      profile. */
  lemma NoneIsLookedUp(m: Media, t: string)
    requires m.fetched && EndCardCandidate(m).Success?
    requires var t1 := EndCardCandidate(m).value;
             t1.None? || UserExists(m.status, t1.value) == NotExists
    requires WatermarkCandidate(m) == Success(None)
    requires IsToken(t)
    ensures ExtractUsername(m) == FromStatus(ClassifyStatus(m.status(ProfilePrefix + "None")),
                                             Extraction(None, false), Extraction(None, false))
    ensures ProfileUrl(Interpolate(None)) != ProfileUrl(t)
  {
    assert ProfileUrl(Interpolate(None))[|ProfilePrefix|] == 'N';
    assert ProfileUrl(t)[|ProfilePrefix|] == '@';
  }
}

/** The watermark pass with the `None` guard the end-card pass already has:
    no lookup is made when the watermark yields no handle. */
module GuardedOrchestrator {
  import opened Wrappers
  import opened Frames
  import opened Verifier
  import opened Orchestrator

  function GuardedWatermarkPass(m: Media): Result<Extraction, Failure>
  {
    match WatermarkCandidate(m)
    case Failure(e) => Failure(e)
    case Success(None) => Success(Extraction(None, false))
    case Success(Some(t2)) =>
      FromStatus(UserExists(m.status, t2), Extraction(Some(t2), false), Extraction(None, false))
  }

  function ExtractGuarded(m: Media): Result<Extraction, Failure>
  {
    Orchestrate(m, GuardedWatermarkPass(m))
  }

  /** Reaching the watermark pass and finding no handle there gives "no
      handle", whatever any server answers. */
  lemma GuardedEmptyWatermark(m: Media)
    requires m.fetched && EndCardCandidate(m).Success?
    requires var t1 := EndCardCandidate(m).value;
             t1.None? || UserExists(m.status, t1.value) == NotExists
    requires WatermarkCandidate(m) == Success(None)
    ensures ExtractGuarded(m) == Success(Extraction(None, false))
  {
  }

  /** In every other case the guard changes nothing. */
  lemma GuardedAgreesOtherwise(m: Media)
    requires WatermarkCandidate(m) != Success(None)
    ensures ExtractGuarded(m) == ExtractUsername(m)
  {
  }

  /** A video with no readable handle anywhere, served by a host that answers
      429 to everything: the source raises, the guarded pass does not. */
  const Unreadable: Media :=
    Media(true, Some(1), (n: int) => Some(Image(0, 0, (x: nat, y: nat) => Rgb(0, 0, 0))),
          Some(Image(0, 0, (x: nat, y: nat) => Rgb(0, 0, 0))),
          (img: Image) => [], (url: string) => 429)

  lemma NoneLookupRaises()
    ensures ExtractUsername(Unreadable) == Failure(StatusError(429))
    ensures ExtractGuarded(Unreadable) == Success(Extraction(None, false))
  {
  }
}
