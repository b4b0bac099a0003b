/** The video controller: the upload options and the bounded retry of the
    host upload, the thumbnail id, and the id and payload rules of updating
    and deleting a video. The media host is a function from the attempt
    number to the attempt's outcome. */
module Videos {
  import opened Wrappers
  import opened JsText
  import opened Media

  // ---------------------------------------------------------------------------
  // Upload options

  datatype OptionValue = Text(s: string) | Number(n: int)

  /** The defaults of `uploadVideoToCloudinary`. */
  const DefaultOptions: map<string, OptionValue> :=
    map["resource_type" := Text("video"), "chunk_size" := Number(6000000),
        "timeout" := Number(120000), "folder" := Text("galeria/videos")]

  /** `{ ...defaults, ...options }`: the caller's options override the
      defaults key by key. */
  function UploadOptions(options: map<string, OptionValue>): (m: map<string, OptionValue>)
    ensures m.Keys == DefaultOptions.Keys + options.Keys
    ensures forall k :: k in options ==> m[k] == options[k]
    ensures forall k :: k in DefaultOptions && k !in options ==> m[k] == DefaultOptions[k]
  {
    DefaultOptions + options
  }

  /** The options `createVideo` passes keep the default folder and raise the timeout. */
  lemma CreateVideoOptions()
    ensures var m := UploadOptions(map["resource_type" := Text("video"), "timeout" := Number(600000),
                                      "chunk_size" := Number(6000000)]);
      m["folder"] == Text("galeria/videos") && m["timeout"] == Number(600000)
      && m.Keys == {"resource_type", "chunk_size", "timeout", "folder"}
  {
  }

  // ---------------------------------------------------------------------------
  // Bounded retry

  /** What the host returns for a stored video. */
  datatype HostVideo = HostVideo(secureUrl: string, publicId: string, duration: Option<int>, format: Option<string>)

  /** One upload attempt: the stored video, or an error with its HTTP code. */
  datatype Attempt = Succeeded(video: HostVideo) | Failed(httpCode: int)

  /** The host's timeout status, the only one retried. */
  const TimeoutCode: int := 499
  const MaxAttempts: nat := 3

  /** The outcome of the attempts from the `k`-th (counting from 0) on, and
      the number of attempts made in all. */
  function RetryFrom(attempt: nat -> Attempt, k: nat): (Result<HostVideo, int>, nat)
    requires k < MaxAttempts
    decreases MaxAttempts - k
  {
    match attempt(k)
    case Succeeded(v) => (Success(v), k + 1)
    case Failed(code) =>
      if k + 1 >= MaxAttempts || code != TimeoutCode then (Failure(code), k + 1)
      else RetryFrom(attempt, k + 1)
  }

  /** The attempts before the `n`-th all timed out. */
  predicate TimedOutBefore(attempt: nat -> Attempt, n: nat) {
    forall k :: 0 <= k < n ==> attempt(k) == Failed(TimeoutCode)
  }

  /** What the retry policy promises: between one and three attempts, all
      but the last timed out; a success is the last attempt's video,
      unchanged; a failure is the last attempt's error, and it is either
      not a timeout or the third attempt. */
  lemma {:induction false} RetryOutcome(attempt: nat -> Attempt, k: nat)
    requires k < MaxAttempts && TimedOutBefore(attempt, k)
    ensures var (r, n) := RetryFrom(attempt, k);
      k < n <= MaxAttempts && TimedOutBefore(attempt, n - 1)
      && (r.Success? <==> attempt(n - 1).Succeeded?)
      && (r.Success? ==> r.value == attempt(n - 1).video)
      && (r.Failure? ==> attempt(n - 1) == Failed(r.error) && (n == MaxAttempts || r.error != TimeoutCode))
    decreases MaxAttempts - k
  {
    match attempt(k)
    case Succeeded(v) =>
    case Failed(code) =>
      if k + 1 < MaxAttempts && code == TimeoutCode {
        RetryOutcome(attempt, k + 1);
      }
  }

  /** A first attempt that succeeds is the only one. */
  lemma FirstSuccessReturned(attempt: nat -> Attempt)
    requires attempt(0).Succeeded?
    ensures RetryFrom(attempt, 0) == (Success(attempt(0).video), 1)
  {
  }

  /** An error other than a timeout is rethrown at once. */
  lemma OtherErrorNotRetried(attempt: nat -> Attempt)
    requires attempt(0).Failed? && attempt(0).httpCode != TimeoutCode
    ensures RetryFrom(attempt, 0) == (Failure(attempt(0).httpCode), 1)
  {
  }

  /** A host that always times out is tried three times. */
  lemma TimeoutsExhaustAttempts(attempt: nat -> Attempt)
    requires forall k :: attempt(k) == Failed(TimeoutCode)
    ensures RetryFrom(attempt, 0) == (Failure(TimeoutCode), 3)
  {
    assert attempt(0) == Failed(TimeoutCode);
    assert attempt(1) == Failed(TimeoutCode);
    assert attempt(2) == Failed(TimeoutCode);
  }

  /** `uploadVideoToCloudinary`: tries the upload until it succeeds, fails
      with anything but a timeout, or has failed three times, waiting
      1000·k ms after the k-th failure. Returns the outcome, the number of
      attempts and the waits in order. */
  method UploadVideo(attempt: nat -> Attempt) returns (r: Result<HostVideo, int>, made: nat, waits: seq<int>)
    ensures (r, made) == RetryFrom(attempt, 0)
    ensures 1 <= made <= MaxAttempts && |waits| == made - 1
    ensures forall k :: 0 <= k < |waits| ==> waits[k] == 1000 * (k + 1)
  {
    var attempts: nat := 0;
    waits := [];
    while attempts < MaxAttempts
      invariant attempts < MaxAttempts && |waits| == attempts
      invariant forall k :: 0 <= k < attempts ==> waits[k] == 1000 * (k + 1)
      invariant RetryFrom(attempt, attempts) == RetryFrom(attempt, 0)
      decreases MaxAttempts - attempts
    {
      match attempt(attempts) {
        case Succeeded(v) =>
          return Success(v), attempts + 1, waits;
        case Failed(code) =>
          attempts := attempts + 1;
          if attempts >= MaxAttempts || code != TimeoutCode {
            return Failure(code), attempts, waits;
          }
          waits := waits + [1000 * attempts];
      }
    }
    assert false;
  }

  // ---------------------------------------------------------------------------
  // Thumbnail and old-video ids

  /** `generarMiniatura`'s result: the thumbnail URL and its id. */
  datatype Thumbnail = Thumbnail(url: string, publicId: string)

  /** `generarMiniatura(publicId)`, with `thumbUrl` standing for the host's
      URL builder (`None` when it throws, which yields `null`). */
  function Thumb(thumbUrl: string -> Option<string>, publicId: string): (t: Option<Thumbnail>)
    ensures t.Some? <==> thumbUrl(publicId).Some?
    ensures t.Some? ==> t.value.url == thumbUrl(publicId).value && '/' !in t.value.publicId && '.' !in t.value.publicId
  {
    match thumbUrl(publicId)
    case None => None
    case Some(u) => Some(Thumbnail(u, MediaId(u)))
  }

  /** A thumbnail URL `base/name.jpg` gives the id `name`. */
  lemma ThumbnailIdOf(thumbUrl: string -> Option<string>, publicId: string, base: string, name: string)
    requires '/' !in name && '.' !in name
    requires thumbUrl(publicId) == Some(base + "/" + name + ".jpg")
    ensures Thumb(thumbUrl, publicId) == Some(Thumbnail(base + "/" + name + ".jpg", name))
  {
    MediaIdOf(base, name, "jpg");
    assert base + "/" + name + "." + "jpg" == base + "/" + name + ".jpg";
  }

  /** A stored video, with the keys the controller reads. */
  datatype VideoDoc = VideoDoc(url: Option<string>, titulo: Option<string>, descripcion: Option<string>,
                               publicId: Option<string>, miniaturaPublicId: Option<string>)

  /** The id of a stored video on the host: its `publicId` when set, else
      derived from its URL in the videos folder; `None` when neither is
      there and `url.split` throws. */
  function OldVideoId(v: VideoDoc): (id: Option<string>)
    ensures Truthy(v.publicId) ==> id == v.publicId
    ensures !Truthy(v.publicId) ==> (id.Some? <==> v.url.Some?)
  {
    if Truthy(v.publicId) then v.publicId
    else if v.url.None? then None
    else Some(DestroyId(VideosFolder, v.url.value))
  }

  /** Without a stored `publicId`, a video at `base/name.ext` is destroyed
      as `galeria/videos/name`. */
  lemma OldVideoIdFromUrl(v: VideoDoc, base: string, name: string, ext: string)
    requires !Truthy(v.publicId) && v.url == Some(base + "/" + name + "." + ext)
    requires '/' !in name && '.' !in name && '/' !in ext
    ensures OldVideoId(v) == Some("galeria/videos/" + name)
  {
    MediaIdOf(base, name, ext);
  }

  // ---------------------------------------------------------------------------
  // updateVideo

  /** The `updateData` object: an absent key is `None`. */
  datatype VideoUpdate = VideoUpdate(
    titulo: Option<string>, descripcion: Option<string>,
    miniatura: Option<string>, miniaturaPublicId: Option<string>,
    url: Option<string>, publicId: Option<string>, duracion: Option<int>, formato: Option<string>)

  const EmptyUpdate: VideoUpdate := VideoUpdate(None, None, None, None, None, None, None, None)

  /** `updateVideo`: 404 for an unknown id; otherwise the truthy text
      fields, and, when a file was sent and uploaded, the old video's id
      to destroy, the thumbnail and the new video's fields. A failed
      upload, or an old video with neither `publicId` nor `url`, is a 500. */
  method UpdateVideo(videos: map<string, VideoDoc>, id: string, titulo: Option<string>, descripcion: Option<string>,
                     hasFile: bool, attempt: nat -> Attempt, thumbUrl: string -> Option<string>)
    returns (status: int, update: VideoUpdate, destroyed: Option<string>)
    ensures status == 404 <==> id !in videos
    ensures id !in videos ==> update == EmptyUpdate && destroyed == None
    ensures id in videos ==> update.titulo == IfTruthy(titulo) && update.descripcion == IfTruthy(descripcion)
    ensures id in videos && !hasFile ==>
      status == 200 && destroyed == None && update == EmptyUpdate.(titulo := IfTruthy(titulo), descripcion := IfTruthy(descripcion))
    ensures id in videos && hasFile ==>
      var (r, _) := RetryFrom(attempt, 0);
      (r.Failure? ==> status == 500 && destroyed == None)
      && (r.Success? ==> destroyed == OldVideoId(videos[id]) && status == (if destroyed.Some? then 200 else 500))
      && (status == 200 ==>
            update.url == Some(r.value.secureUrl) && update.publicId == Some(r.value.publicId)
            && update.duracion == Some(r.value.duration.GetOr(0))
            && update.formato == Some(OrElse(r.value.format, ""))
            && match Thumb(thumbUrl, r.value.publicId)
               case None => update.miniatura.None? && update.miniaturaPublicId.None?
               case Some(t) => update.miniatura == Some(t.url) && update.miniaturaPublicId == Some(t.publicId))
  {
    if id !in videos {
      return 404, EmptyUpdate, None;
    }
    var existing := videos[id];
    update := EmptyUpdate;
    destroyed := None;
    if Truthy(titulo) {
      update := update.(titulo := titulo);
    }
    if Truthy(descripcion) {
      update := update.(descripcion := descripcion);
    }
    if hasFile {
      var r, made, waits := UploadVideo(attempt);
      if r.Failure? {
        return 500, update, None;
      }
      var result := r.value;
      destroyed := OldVideoId(existing);
      if destroyed.None? {
        return 500, update, None;
      }
      var miniatura := Thumb(thumbUrl, result.publicId);
      if miniatura.Some? {
        update := update.(miniatura := Some(miniatura.value.url), miniaturaPublicId := Some(miniatura.value.publicId));
      }
      update := update.(url := Some(result.secureUrl), publicId := Some(result.publicId));
      update := update.(duracion := Some(result.duration.GetOr(0)), formato := Some(OrElse(result.format, "")));
    }
    status := 200;
  }

  // ---------------------------------------------------------------------------
  // deleteVideo

  /** `deleteVideo`: 404 for an unknown id; otherwise the ids destroyed on the
      host (the video, then its thumbnail when it has one and the first
      destroy did not throw) and the collection without the video. A video
      with neither `publicId` nor `url` is a 500 and stays stored. */
  function DeleteVideo(videos: map<string, VideoDoc>, id: string, firstDestroyOk: bool)
    : (out: (int, seq<string>, map<string, VideoDoc>))
    ensures out.0 == 404 <==> id !in videos
    ensures out.0 == 500 <==> id in videos && OldVideoId(videos[id]).None?
    ensures out.0 == 200 <==> id in videos && OldVideoId(videos[id]).Some?
    ensures out.0 == 200 ==> out.2 == videos - {id} && 1 <= |out.1| <= 2 && Some(out.1[0]) == OldVideoId(videos[id])
    ensures out.0 != 200 ==> out.2 == videos && out.1 == []
    ensures out.0 == 200 ==> (|out.1| == 2 <==> firstDestroyOk && Truthy(videos[id].miniaturaPublicId))
    ensures out.0 == 200 && |out.1| == 2 ==> out.1[1] == videos[id].miniaturaPublicId.value
  {
    if id !in videos then (404, [], videos)
    else
      var v := videos[id];
      match OldVideoId(v)
      case None => (500, [], videos)
      case Some(publicId) =>
        var thumb := if firstDestroyOk && Truthy(v.miniaturaPublicId) then [v.miniaturaPublicId.value] else [];
        (200, [publicId] + thumb, videos - {id})
  }
}
