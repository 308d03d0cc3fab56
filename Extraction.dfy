/** `process_file_metadata`: derive the name and extension, choose the MIME
    type, dispatch on its top-level category to the image, video or audio
    extractor, record an extractor's exception as an `error` entry, and clean
    the collected metadata. The decoders themselves are not modelled: a
    `Probe` holds what each of them yields for the file at hand. */
module Extraction {
  import opened Wrappers
  import opened MetadataCleaning
  import opened Dicts
  import opened FileNames

  datatype FileType = Image | Video | Audio | Other

  /** A creation timestamp, carried through unchanged. */
  type Timestamp = int

  /** What calling `_getexif` on an opened image does. */
  datatype ExifAccess =
    | NoExifMethod                           // the image has no `_getexif`
    | ExifRaises(msg: string)
    | ExifReturns(tags: Option<seq<Entry>>)  // a dict from tag number to value, or None

  /** The attributes of an image the decoder opened. */
  datatype OpenedImage = OpenedImage(
    width: int,
    height: int,
    format: Value,           // `img.format`: a Str, or Null when the decoder sets none
    mode: string,
    isAnimated: Option<bool>, // None when the image has no `is_animated` attribute
    nFrames: Option<int>,     // None when the image has no `n_frames` attribute
    dpi: Value,              // `img.info.get('dpi')`: Null when absent
    exif: ExifAccess)

  /** What the image decoder (`Image.open`) does with the file. */
  datatype ImageDecode = ImageFails(msg: string) | ImageOpens(img: OpenedImage)

  /** The stream attributes the audio/video parser reports; an attribute it
      does not report is Null (or None for `length`, which is tested with
      `hasattr`). */
  datatype MediaInfo = MediaInfo(
    length: Option<real>,
    bitrate: Value,
    fps: Value,
    codec: Value,
    channels: Value,
    sampleRate: Value,
    tags: Option<seq<Entry>>) // `dict(audio.tags)`, None when there is no tags attribute or it is None

  /** What the audio/video parser (`mutagen.File`) does with the file. */
  datatype MediaDecode =
    | MediaFails(msg: string)
    | MediaUnrecognised        // the parser's result tests false (None, or no tags)
    | MediaParsed(info: MediaInfo)
    | MediaFieldsRaise(info: MediaInfo, msg: string) // recognised, but building the field dict raises

  /** Everything the foreign libraries report about one file: the signature
      sniffer (`filetype.guess`), the extension table (first component of
      `mimetypes.guess_type`), the image decoder and the media parser. */
  datatype Probe = Probe(
    sniffed: Option<string>,
    guessed: Option<string>,
    image: ImageDecode,
    media: MediaDecode)

  /** A path on the local disk, or an uploaded file object; `size` is what
      `os.path.getsize` or the upload reports. */
  datatype FileInput = LocalPath(path: string, size: nat) | Uploaded(name: string, size: nat)

  datatype FileMetadata = FileMetadata(
    name: string,
    fileType: FileType,
    mimeType: string,
    fileExtension: string,
    size: nat,
    dimensions: Option<(int, int)>,
    duration: Option<real>,
    dateCreated: Timestamp,
    metadata: seq<Entry>)

  const OctetStream: string := "application/octet-stream"

  /** The file name: the base name of a path, or an upload's own name. */
  function Filename(input: FileInput): (r: string)
    ensures input.Uploaded? ==> r == input.name
    ensures input.LocalPath? ==>
      var p := input.path;
      && '/' !in r && |r| <= |p| && r == p[|p| - |r|..]
      && (|r| == |p| || p[|p| - |r| - 1] == '/')
  {
    match input
    case LocalPath(p, _) => Basename(p)
    case Uploaded(n, _) => n
  }

  predicate StartsWith(s: string, prefix: string) {
    |prefix| <= |s| && s[..|prefix|] == prefix
  }

  /** The MIME type: the sniffed one when the signature matched, else the
      extension table's guess unless that is missing or empty, else the
      generic binary type. */
  function ChooseMime(sniffed: Option<string>, guessed: Option<string>): (r: string)
    ensures sniffed.Some? ==> r == sniffed.value
    ensures sniffed.None? && guessed.Some? && guessed.value != "" ==> r == guessed.value
    ensures sniffed.None? && (guessed.None? || guessed.value == "") ==> r == OctetStream
    ensures sniffed.None? || sniffed.value != "" ==> r != ""
  {
    match sniffed
    case Some(m) => m
    case None => if guessed.Some? && guessed.value != "" then guessed.value else OctetStream
  }

  /** The media category a MIME type is dispatched to. */
  function Category(mime: string): (t: FileType)
    ensures t == Image <==> StartsWith(mime, "image/")
    ensures t == Video <==> StartsWith(mime, "video/")
    ensures t == Audio <==> StartsWith(mime, "audio/")
  {
    if StartsWith(mime, "image/") then Image
    else if StartsWith(mime, "video/") then Video
    else if StartsWith(mime, "audio/") then Audio
    else Other
  }

  function ErrorDict(msg: string): seq<Entry> {
    [Entry(StrKey("error"), Str(msg))]
  }

  /** The `exif` entry: the cleaned EXIF dict when `_getexif` exists and
      returns a non-empty dict, None otherwise (a missing method, None and
      `{}` all test false); raising when `_getexif` or the cleaning raises. */
  function ExifField(e: ExifAccess): (r: Result<Value>)
    ensures e.ExifRaises? ==> r == Err(e.msg)
    ensures e.NoExifMethod? || e == ExifReturns(None) || e == ExifReturns(Some([])) ==> r == Ok(Null)
    ensures r.Ok? && r.value != Null ==>
      && e.ExifReturns? && e.tags.Some? && e.tags.value != []
      && r.value.Dict? && JsonSafe(r.value) && Keys(r.value.entries) == Keys(e.tags.value)
    ensures r.Err? && !e.ExifRaises? ==> r.msg == ZeroDivision
    ensures e.ExifReturns? && e.tags.Some? && e.tags.value != [] ==> r == Clean(Dict(e.tags.value))
  {
    match e
    case NoExifMethod => Ok(Null)
    case ExifRaises(m) => Err(m)
    case ExifReturns(None) => Ok(Null)
    case ExifReturns(Some(tags)) => if tags == [] then Ok(Null) else Clean(Dict(tags))
  }

  const ImageKeys: seq<Key> :=
    [StrKey("format"), StrKey("mode"), StrKey("is_animated"), StrKey("n_frames"), StrKey("dpi"), StrKey("exif")]
  const VideoKeys: seq<Key> := [StrKey("bitrate"), StrKey("fps"), StrKey("codec")]
  const AudioKeys: seq<Key> := [StrKey("bitrate"), StrKey("channels"), StrKey("sample_rate"), StrKey("tags")]

  /** The dict the image branch passes to `update`: an image without
      `is_animated` counts as not animated, one without `n_frames` as one
      frame. */
  function ImageFields(img: OpenedImage, exif: Value): (r: seq<Entry>)
    ensures Keys(r) == ImageKeys && UniqueKeys(r)
    ensures img.isAnimated.None? ==> r[2].val == Bool(false)
    ensures img.nFrames.None? ==> r[3].val == Int(1)
    ensures r[0].val == img.format && r[1].val == Str(img.mode) && r[4].val == img.dpi && r[5].val == exif
    ensures img.isAnimated.Some? ==> r[2].val == Bool(img.isAnimated.value)
    ensures img.nFrames.Some? ==> r[3].val == Int(img.nFrames.value)
  {
    var fs :=
      [ Entry(StrKey("format"), img.format),
        Entry(StrKey("mode"), Str(img.mode)),
        Entry(StrKey("is_animated"), Bool(img.isAnimated.GetOr(false))),
        Entry(StrKey("n_frames"), Int(img.nFrames.GetOr(1))),
        Entry(StrKey("dpi"), img.dpi),
        Entry(StrKey("exif"), exif) ];
    assert fs[0].key.s[0] == 'f' && fs[1].key.s[0] == 'm' && fs[2].key.s[0] == 'i';
    assert fs[3].key.s[0] == 'n' && fs[4].key.s[0] == 'd' && fs[5].key.s[0] == 'e';
    DistinctInitials(fs);
    fs
  }

  /** The dict the video branch passes to `update`: the reported bitrate,
      frame rate and codec, each Null when not reported. */
  function VideoFields(info: MediaInfo): (r: seq<Entry>)
    ensures Keys(r) == VideoKeys && UniqueKeys(r)
    ensures r[0].val == info.bitrate && r[1].val == info.fps && r[2].val == info.codec
  {
    var fs :=
      [ Entry(StrKey("bitrate"), info.bitrate),
        Entry(StrKey("fps"), info.fps),
        Entry(StrKey("codec"), info.codec) ];
    assert fs[0].key.s[0] == 'b' && fs[1].key.s[0] == 'f' && fs[2].key.s[0] == 'c';
    DistinctInitials(fs);
    fs
  }

  /** The dict the audio branch passes to `update`: bitrate, channels and
      sample rate as reported, and the tags, `{}` when there are none. */
  function AudioFields(info: MediaInfo): (r: seq<Entry>)
    ensures Keys(r) == AudioKeys && UniqueKeys(r)
    ensures r[0].val == info.bitrate && r[1].val == info.channels && r[2].val == info.sampleRate
    ensures info.tags.None? || info.tags == Some([]) ==> r[3].val == Dict([])
    ensures info.tags.Some? ==> r[3].val == Dict(info.tags.value)
  {
    var fs :=
      [ Entry(StrKey("bitrate"), info.bitrate),
        Entry(StrKey("channels"), info.channels),
        Entry(StrKey("sample_rate"), info.sampleRate),
        Entry(StrKey("tags"), Dict(if info.tags.Some? && info.tags.value != [] then info.tags.value else [])) ];
    assert fs[0].key.s[0] == 'b' && fs[1].key.s[0] == 'c' && fs[2].key.s[0] == 's' && fs[3].key.s[0] == 't';
    DistinctInitials(fs);
    fs
  }

  /** What the dispatch hands on to the final cleaning. */
  datatype Collected = Collected(
    fileType: FileType,
    dimensions: Option<(int, int)>,
    duration: Option<real>,
    metadata: seq<Entry>)

  /** The image branch: dimensions come from the opened image, and are taken
      before the metadata dict is built, so they survive an exception there;
      an exception becomes a dict holding only `error`. */
  function ImageCollect(d: ImageDecode): (c: Collected)
    ensures c.fileType == Image && c.duration.None?
    ensures c.dimensions.Some? <==> d.ImageOpens?
    ensures c.dimensions.Some? ==> c.dimensions.value == (d.img.width, d.img.height)
    ensures d.ImageFails? ==> c.metadata == ErrorDict(d.msg)
    ensures d.ImageOpens? && ExifField(d.img.exif).Err? ==> c.metadata == ErrorDict(ExifField(d.img.exif).msg)
    ensures d.ImageOpens? && ExifField(d.img.exif).Ok? ==>
      c.metadata == ImageFields(d.img, ExifField(d.img.exif).value)
  {
    match d
    case ImageFails(m) => Collected(Image, None, None, ErrorDict(m))
    case ImageOpens(img) =>
      var dims := Some((img.width, img.height));
      match ExifField(img.exif)
      case Err(m) => Collected(Image, dims, None, ErrorDict(m))
      case Ok(x) => Collected(Image, dims, None, ImageFields(img, x))
  }

  /** The video or audio branch (`t` says which): the duration is the stream
      length when the parser recognised the file, set before the field dict
      is built; an exception becomes a dict holding only `error`. */
  function MediaCollect(t: FileType, d: MediaDecode): (c: Collected)
    ensures c.fileType == t && c.dimensions.None?
    ensures c.duration.Some? ==> d.MediaParsed? || d.MediaFieldsRaise?
    ensures d.MediaParsed? ==>
      c.duration == d.info.length
      && c.metadata == (if t == Video then VideoFields(d.info) else AudioFields(d.info))
    ensures d.MediaUnrecognised? ==> c.metadata == [] && c.duration.None?
    ensures d.MediaFails? ==> c.metadata == ErrorDict(d.msg) && c.duration.None?
    ensures d.MediaFieldsRaise? ==> c.metadata == ErrorDict(d.msg) && c.duration == d.info.length
  {
    match d
    case MediaFails(m) => Collected(t, None, None, ErrorDict(m))
    case MediaUnrecognised => Collected(t, None, None, [])
    case MediaParsed(info) =>
      Collected(t, None, info.length, if t == Video then VideoFields(info) else AudioFields(info))
    case MediaFieldsRaise(info, m) => Collected(t, None, info.length, ErrorDict(m))
  }

  /** The extractor for the category of `mime`; any other category collects
      nothing. */
  function Collect(mime: string, probe: Probe): (c: Collected)
    ensures c.fileType == Category(mime)
    ensures c.dimensions.Some? ==>
      c.fileType == Image && probe.image.ImageOpens?
      && c.dimensions.value == (probe.image.img.width, probe.image.img.height)
    ensures c.duration.Some? ==>
      c.fileType in {Video, Audio} && (probe.media.MediaParsed? || probe.media.MediaFieldsRaise?)
    ensures c.fileType == Other ==> c.metadata == [] && c.dimensions.None? && c.duration.None?
    ensures c.fileType == Image ==> c == ImageCollect(probe.image)
    ensures c.fileType in {Video, Audio} ==> c == MediaCollect(c.fileType, probe.media)
  {
    match Category(mime)
    case Image => ImageCollect(probe.image)
    case Video => MediaCollect(Video, probe.media)
    case Audio => MediaCollect(Audio, probe.media)
    case Other => Collected(Other, None, None, [])
  }

  /** The record process_file_metadata returns for `input`, or the exception
      it raises. */
  function FileMetadataOf(input: FileInput, probe: Probe, dateCreated: Timestamp): (r: Result<FileMetadata>)
    ensures r.Ok? ==>
      && r.value.mimeType == ChooseMime(probe.sniffed, probe.guessed)
      && r.value.fileType == Category(r.value.mimeType)
      && r.value.fileExtension == FileExtension(Filename(input))
      && r.value.size == input.size && r.value.dateCreated == dateCreated
    ensures r.Err? ==> r.msg == ZeroDivision
  {
    var filename := Filename(input);
    var mime := ChooseMime(probe.sniffed, probe.guessed);
    var c := Collect(mime, probe);
    match CleanEntries(c.metadata)
    case Err(m) => Err(m)
    case Ok(cleaned) =>
      Ok(FileMetadata(SplitExt(filename).0, c.fileType, mime, FileExtension(filename),
                      input.size, c.dimensions, c.duration, dateCreated, cleaned))
  }

  /** process_file_metadata, step by step: the name and extension are split
      off, the MIME type chosen, and the extractor of its category fills the
      locals `dimensions`, `duration` and `metadata`. */
  method ProcessFileMetadata(input: FileInput, probe: Probe, dateCreated: Timestamp)
    returns (r: Result<FileMetadata>)
    ensures r == FileMetadataOf(input, probe, dateCreated)
  {
    var filename := Filename(input);
    var (name, ext) := SplitExt(filename);
    var fileExtension := FileExtension(filename);
    var mimeType := ChooseMime(probe.sniffed, probe.guessed);

    var metadata: seq<Entry> := [];
    var dimensions: Option<(int, int)> := None;
    var duration: Option<real> := None;
    var fileType: FileType;

    if StartsWith(mimeType, "image/") {
      fileType := Image;
      dimensions, metadata := ExtractImage(probe.image);
      assert Collect(mimeType, probe) == Collected(fileType, dimensions, duration, metadata);
    } else if StartsWith(mimeType, "video/") {
      fileType := Video;
      duration, metadata := ExtractMedia(Video, probe.media);
      assert Collect(mimeType, probe) == Collected(fileType, dimensions, duration, metadata);
    } else if StartsWith(mimeType, "audio/") {
      fileType := Audio;
      duration, metadata := ExtractMedia(Audio, probe.media);
      assert Collect(mimeType, probe) == Collected(fileType, dimensions, duration, metadata);
    } else {
      fileType := Other;
      assert Collect(mimeType, probe) == Collected(fileType, dimensions, duration, metadata);
    }

    var cleaned := CleanEntries(metadata);
    if cleaned.Err? {
      r := Err(cleaned.msg);
    } else {
      r := Ok(FileMetadata(name, fileType, mimeType, fileExtension, input.size,
                           dimensions, duration, dateCreated, cleaned.value));
    }
  }

  /** The image try-block: the dimensions are set first, then the metadata
      dict is filled by `update`; an exception leaves `{'error': msg}`. */
  method ExtractImage(d: ImageDecode) returns (dimensions: Option<(int, int)>, metadata: seq<Entry>)
    ensures Collected(Image, dimensions, None, metadata) == ImageCollect(d)
  {
    dimensions := None;
    metadata := [];
    match d {
      case ImageFails(m) =>
        ErrorIsNew(m);
        metadata := DictSet(metadata, StrKey("error"), Str(m));
      case ImageOpens(img) =>
        dimensions := Some((img.width, img.height));
        var exif := ExifField(img.exif);
        if exif.Err? {
          ErrorIsNew(exif.msg);
          metadata := DictSet(metadata, StrKey("error"), Str(exif.msg));
        } else {
          ImageFieldsAreNew(img, exif.value);
          metadata := DictUpdate(metadata, ImageFields(img, exif.value));
        }
    }
  }

  /** The video or audio try-block (`t` says which): when the parser
      recognises the file, the duration is its stream length and the
      metadata dict is filled by `update`; an exception leaves
      `{'error': msg}`. */
  method ExtractMedia(t: FileType, d: MediaDecode) returns (duration: Option<real>, metadata: seq<Entry>)
    ensures Collected(t, None, duration, metadata) == MediaCollect(t, d)
  {
    duration := None;
    metadata := [];
    match d {
      case MediaFails(m) =>
        ErrorIsNew(m);
        metadata := DictSet(metadata, StrKey("error"), Str(m));
      case MediaUnrecognised =>
      case MediaParsed(info) =>
        duration := info.length;
        if t == Video {
          VideoFieldsAreNew(info);
          metadata := DictUpdate(metadata, VideoFields(info));
        } else {
          AudioFieldsAreNew(info);
          metadata := DictUpdate(metadata, AudioFields(info));
        }
      case MediaFieldsRaise(info, m) =>
        duration := info.length;
        ErrorIsNew(m);
        metadata := DictSet(metadata, StrKey("error"), Str(m));
    }
  }

  /** Keys whose first characters differ pairwise are unique. */
  lemma DistinctInitials(es: seq<Entry>)
    requires forall i :: 0 <= i < |es| ==> es[i].key.StrKey? && es[i].key.s != ""
    requires forall i, j :: 0 <= i < j < |es| ==> es[i].key.s[0] != es[j].key.s[0]
    ensures UniqueKeys(es)
  {
  }

  /** `metadata['error'] = msg` on the empty dict. */
  lemma ErrorIsNew(msg: string)
    ensures DictSet([], StrKey("error"), Str(msg)) == ErrorDict(msg)
  {
  }

  /** `metadata.update({...})` with the image fields, on the empty dict. */
  lemma ImageFieldsAreNew(img: OpenedImage, exif: Value)
    ensures UniqueKeys(ImageFields(img, exif))
    ensures DictUpdate([], ImageFields(img, exif)) == ImageFields(img, exif)
  {
    var fs := ImageFields(img, exif);
    assert [] + fs == fs;
    UpdateWithNewKeys([], fs);
  }

  /** `metadata.update({...})` with the video fields, on the empty dict. */
  lemma VideoFieldsAreNew(info: MediaInfo)
    ensures UniqueKeys(VideoFields(info))
    ensures DictUpdate([], VideoFields(info)) == VideoFields(info)
  {
    var fs := VideoFields(info);
    assert [] + fs == fs;
    UpdateWithNewKeys([], fs);
  }

  /** `metadata.update({...})` with the audio fields, on the empty dict. */
  lemma AudioFieldsAreNew(info: MediaInfo)
    ensures UniqueKeys(AudioFields(info))
    ensures DictUpdate([], AudioFields(info)) == AudioFields(info)
  {
    var fs := AudioFields(info);
    assert [] + fs == fs;
    UpdateWithNewKeys([], fs);
  }

  /** The returned record is assembled from what the dispatch collected, and
      exists exactly when the collected metadata cleans. */
  lemma Assembled(input: FileInput, probe: Probe, dateCreated: Timestamp)
    ensures var r := FileMetadataOf(input, probe, dateCreated);
      var mime := ChooseMime(probe.sniffed, probe.guessed);
      var c := Collect(mime, probe);
      && (r.Ok? <==> CleanEntries(c.metadata).Ok?)
      && (r.Err? ==> r.msg == CleanEntries(c.metadata).msg)
      && (r.Ok? ==>
            && r.value.mimeType == mime && r.value.fileType == c.fileType
            && r.value.dimensions == c.dimensions && r.value.duration == c.duration
            && r.value.metadata == CleanEntries(c.metadata).value)
  {
  }

  /** The returned record's name and extension come from the file name alone,
      whatever the content. */
  lemma NameFromFilename(input: FileInput, probe: Probe, dateCreated: Timestamp)
    ensures var r := FileMetadataOf(input, probe, dateCreated);
      r.Ok? ==>
        && r.value.name + SplitExt(Filename(input)).1 == Filename(input)
        && r.value.fileExtension == FileExtension(Filename(input)) && r.value.size == input.size
  {
  }

  /** The record carries the chosen MIME type and the category it dispatches
      to; a type outside image/, video/ and audio/ yields OTHER with no
      dimensions, no duration and empty metadata. */
  lemma DispatchFollowsMime(input: FileInput, probe: Probe, dateCreated: Timestamp)
    ensures var r := FileMetadataOf(input, probe, dateCreated);
      var mime := ChooseMime(probe.sniffed, probe.guessed);
      && (r.Ok? ==> r.value.mimeType == mime && r.value.fileType == Category(mime))
      && (Category(mime) == Other ==>
            r.Ok? && r.value.fileType == Other && r.value.dimensions.None?
            && r.value.duration.None? && r.value.metadata == [])
  {
    Assembled(input, probe, dateCreated);
    var mime := ChooseMime(probe.sniffed, probe.guessed);
    assert Collect(mime, probe).fileType == Category(mime);
  }

  /** An error dict is already clean. */
  lemma ErrorDictCleans(msg: string)
    ensures CleanEntries(ErrorDict(msg)) == Ok(ErrorDict(msg))
  {
    CleanFixesJsonSafe(Dict(ErrorDict(msg)));
  }

  /** An image the decoder cannot open is still an IMAGE: no dimensions, and
      metadata holding only `error` with the decoder's message. */
  lemma ImageFailureRecorded(input: FileInput, probe: Probe, dateCreated: Timestamp)
    requires Category(ChooseMime(probe.sniffed, probe.guessed)) == Image
    requires probe.image.ImageFails?
    ensures var r := FileMetadataOf(input, probe, dateCreated);
      && r.Ok? && r.value.fileType == Image && r.value.dimensions.None?
      && r.value.metadata == ErrorDict(probe.image.msg)
  {
    Assembled(input, probe, dateCreated);
    ErrorDictCleans(probe.image.msg);
  }

  /** When building the image metadata raises (in `_getexif` or in cleaning
      the EXIF data), the dimensions read before stay set and the metadata
      holds only `error`. */
  lemma ExifFailureRecorded(input: FileInput, probe: Probe, dateCreated: Timestamp)
    requires Category(ChooseMime(probe.sniffed, probe.guessed)) == Image
    requires probe.image.ImageOpens? && ExifField(probe.image.img.exif).Err?
    ensures var r := FileMetadataOf(input, probe, dateCreated);
      && r.Ok? && r.value.fileType == Image
      && r.value.dimensions == Some((probe.image.img.width, probe.image.img.height))
      && r.value.metadata == ErrorDict(ExifField(probe.image.img.exif).msg)
  {
    Assembled(input, probe, dateCreated);
    ErrorDictCleans(ExifField(probe.image.img.exif).msg);
  }

  /** A video or audio file the parser fails on keeps its type, has no
      duration, and metadata holding only `error`. */
  lemma MediaFailureRecorded(input: FileInput, probe: Probe, dateCreated: Timestamp)
    requires Category(ChooseMime(probe.sniffed, probe.guessed)) in {Video, Audio}
    requires probe.media.MediaFails?
    ensures var r := FileMetadataOf(input, probe, dateCreated);
      && r.Ok? && r.value.fileType == Category(ChooseMime(probe.sniffed, probe.guessed))
      && r.value.dimensions.None? && r.value.duration.None?
      && r.value.metadata == ErrorDict(probe.media.msg)
  {
    Assembled(input, probe, dateCreated);
    ErrorDictCleans(probe.media.msg);
  }

  /** A video or audio file whose field dict raises keeps the duration set
      before it, next to metadata holding only `error`. */
  lemma MediaFieldsFailureRecorded(input: FileInput, probe: Probe, dateCreated: Timestamp)
    requires Category(ChooseMime(probe.sniffed, probe.guessed)) in {Video, Audio}
    requires probe.media.MediaFieldsRaise?
    ensures var r := FileMetadataOf(input, probe, dateCreated);
      && r.Ok? && r.value.fileType == Category(ChooseMime(probe.sniffed, probe.guessed))
      && r.value.dimensions.None? && r.value.duration == probe.media.info.length
      && r.value.metadata == ErrorDict(probe.media.msg)
  {
    Assembled(input, probe, dateCreated);
    ErrorDictCleans(probe.media.msg);
  }

  /** Only an opened image has dimensions, and they are its size. */
  lemma DimensionsOnlyFromImages(input: FileInput, probe: Probe, dateCreated: Timestamp)
    ensures var r := FileMetadataOf(input, probe, dateCreated);
      r.Ok? && r.value.dimensions.Some? ==>
        && r.value.fileType == Image && probe.image.ImageOpens?
        && r.value.dimensions.value == (probe.image.img.width, probe.image.img.height)
  {
    Assembled(input, probe, dateCreated);
  }

  /** Every extractor builds a dict whose keys are unique. */
  lemma CollectedKeysUnique(mime: string, probe: Probe)
    ensures UniqueKeys(Collect(mime, probe).metadata)
  {
    match Category(mime)
    case Image => ImageKeysUnique(probe.image);
    case Video => MediaKeysUnique(Video, probe.media);
    case Audio => MediaKeysUnique(Audio, probe.media);
    case Other =>
  }

  lemma ImageKeysUnique(d: ImageDecode)
    ensures UniqueKeys(ImageCollect(d).metadata)
  {
    if d.ImageOpens? && ExifField(d.img.exif).Ok? {
      ImageFieldsAreNew(d.img, ExifField(d.img.exif).value);
    }
  }

  lemma MediaKeysUnique(t: FileType, d: MediaDecode)
    ensures UniqueKeys(MediaCollect(t, d).metadata)
  {
    if d.MediaParsed? {
      if t == Video { VideoFieldsAreNew(d.info); } else { AudioFieldsAreNew(d.info); }
    }
  }

  /** The metadata of a returned record is a JSON-safe dict with unique keys. */
  lemma MetadataIsJsonSafe(input: FileInput, probe: Probe, dateCreated: Timestamp)
    ensures var r := FileMetadataOf(input, probe, dateCreated);
      r.Ok? ==> JsonSafe(Dict(r.value.metadata)) && UniqueKeys(r.value.metadata)
  {
    Assembled(input, probe, dateCreated);
    var c := Collect(ChooseMime(probe.sniffed, probe.guessed), probe);
    if CleanEntries(c.metadata).Ok? {
      var cleaned := CleanEntries(c.metadata).value;
      CollectedKeysUnique(ChooseMime(probe.sniffed, probe.guessed), probe);
      assert |cleaned| == |Keys(cleaned)| == |Keys(c.metadata)| == |c.metadata|;
      forall i, j | 0 <= i < j < |cleaned| ensures cleaned[i].key != cleaned[j].key {
        assert Keys(cleaned)[i] == Keys(c.metadata)[i] && Keys(cleaned)[j] == Keys(c.metadata)[j];
      }
    }
  }
}
