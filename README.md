# Photomink file metadata pipeline, in Dafny

This project models the metadata pipeline of Photomink's asset service
(`photomink/main/utils.py`). The pipeline has three parts:

- **The normaliser** `clean_metadata_for_json`. It turns the values that
  image and media decoders return into something the JSON encoder accepts:
  - dicts keep their keys;
  - lists and tuples become lists;
  - anything with a numerator and a denominator becomes a float (ints and
    bools included);
  - EXIF carriers are replaced by their EXIF data;
  - floats, strings and None stay as they are;
  - anything else becomes its string form.

  A zero denominator raises `ZeroDivisionError`.
- **The orchestrator** `process_file_metadata`. It does the following, in order:
  - splits the file name into name and extension, and lower-cases the
    extension without its dot;
  - chooses the MIME type: the sniffed signature, else the extension table,
    else `application/octet-stream`;
  - dispatches on the MIME prefix `image/`, `video/` or `audio/` to an
    extractor;
  - records an extractor's exception as `metadata['error']`;
  - cleans the metadata and returns a `FileMetadata` record.
- **The background job** `process_file_metadata_background`. It loads the
  asset, copies the remote object into a scratch file, and runs the
  orchestrator on that file. Then it commits one of two outcomes:
  - on success, the extracted fields and status COMPLETED;
  - on any exception, status FAILED and the message, written on a freshly
    loaded asset.

The decoders are foreign libraries: `filetype`, `mimetypes`, PIL and
mutagen. They appear as oracle values (`Extraction.Probe`), each saying what
its library yields for the file at hand: a value, nothing, or an exception
message. Python exceptions become `Result.Err` values. Each carries the
message `str(e)` would give.

Modules:

- `Wrappers`: `Option` and `Result`.
- `MetadataCleaning`: metadata values and the normaliser (pure).
- `Dicts`: Python's `d[k] = v` and `d.update(...)` on insertion-ordered
  entries.
- `FileNames`: `os.path.basename`, `os.path.splitext`, `lower` and `lstrip`.
- `Extraction`: the orchestrator. It is an imperative method proved equal to
  the function `FileMetadataOf`.
- `Background`: the background job. It has the classes `Asset`, `AssetStore`
  and `ScratchSpace`, and a method proved against the functions `RowsAfter`
  and `ScratchAfter`.

### Where the design description and the code differ

The design description states how the pipeline is meant to behave. The
model follows the code in each of these cases.

- **Scratch file cleanup.** The design says the scratch file is deleted on
  every exit path. The code calls `os.unlink` only after
  `process_file_metadata` has returned (utils.py:228). A failed read or a
  failed extraction therefore leaves the file behind: empty after a failed
  read, with the copied bytes after a failed extraction.
  (`Background.ScratchLeaksIff`)
- **Stale `processing_error`.** The design says `processing_error` is
  present only when the status is FAILED. The success path never clears it
  (utils.py:231-243). An asset that failed once and then succeeds is
  COMPLETED and still carries the old message.
  (`Background.SuccessKeepsStaleError`)
- **Missing asset.** The design says a missing asset ends in a FAILED
  commit, and that the worker never crashes. In the code, the handler's own
  `Asset.objects.get` (utils.py:247) raises again, and the exception escapes
  the function. Nothing is written. (`Background.ProcessInBackground`,
  outcome `Raised`)
- **Extension in the background path.** The orchestrator runs on the
  scratch file's name, not on the original file's name (utils.py:225). That
  name has no suffix, so every asset processed in the background gets the
  empty `file_extension`. (`Background.ScratchNameGivesEmptyExtension`)
- **Dimensions after an EXIF failure.** The design says a failing image
  decoder leaves only the error in the metadata. The code sets `dimensions`
  before it builds the field dict (utils.py:137-145), so an exception raised
  while building the fields leaves the dimensions set next to
  `{'error': msg}`. (`Extraction.ExifFailureRecorded`) The video and audio
  branches do the same with the duration (utils.py:154 and 168, before the
  dicts at 155-159 and 169-174): a field that raises, such as
  `dict(audio.tags)`, leaves the duration set next to the error.
  (`Extraction.MediaFieldsFailureRecorded`)
- **Zero denominators outside EXIF.** Only EXIF is cleaned inside the image
  try-block (utils.py:144). A rational with denominator zero elsewhere, such
  as in `dpi` (utils.py:143), is first cleaned at utils.py:191, outside every
  handler, so `process_file_metadata` raises `ZeroDivisionError` and the
  background job marks the asset FAILED. (`Extraction.Assembled`,
  `MetadataCleaning.CleanFailsIff`)
- **No depth bound in the normaliser.** The design asks the normaliser to
  terminate on cyclic or deeply nested input within a bounded recursion
  depth, turning a structure nested too deeply into its string form. The
  code has no depth guard: it recurses into every dict, list, tuple and
  EXIF carrier (utils.py:86-95), so such input raises `RecursionError`. The
  model's values are finite trees and it has no depth bound either; the
  `RecursionError` case is listed under "Left out".

## Model

| member | source | states |
|---|---|---|
| MetadataCleaning.Divide | photomink/main/utils.py:90-92 | Raises "float division by zero" exactly when the denominator is 0; otherwise the result is a float f with f * denominator = numerator |
| MetadataCleaning.Clean | photomink/main/utils.py:82-100 | A cleaned value is built only from dicts, lists, floats, strings and None; the only exception it raises is the zero division |
| MetadataCleaning.CleanEntries | photomink/main/utils.py:86-87 | The dict comprehension keeps the keys in order and leaves only JSON-safe values; it raises only the zero division |
| MetadataCleaning.CleanItems | photomink/main/utils.py:88-89 | The list comprehension keeps the length and leaves only JSON-safe elements; it raises only the zero division |
| MetadataCleaning.CleanEntriesPointwise | photomink/main/utils.py:86-87 | The dict comprehension succeeds iff every value cleans, and then value i is the cleaned value i |
| MetadataCleaning.CleanItemsPointwise | photomink/main/utils.py:88-89 | The list comprehension succeeds iff every element cleans, and then element i is the cleaned element i |
| MetadataCleaning.CleanDict | photomink/main/utils.py:86-87 | A dict becomes a dict with the same keys in the same order, each value replaced by its cleaned form; it fails iff one of its values fails |
| MetadataCleaning.CleanSequence | photomink/main/utils.py:88-89 | A list or a tuple becomes a list of the same length whose element i is the cleaned element i; it fails iff one of its elements fails |
| MetadataCleaning.CleanLeaves | photomink/main/utils.py:90-100 | Ints and bools take the numerator/denominator branch and become floats (never returned as they are); an EXIF carrier becomes its cleaned EXIF data; floats, strings and None are returned unchanged; rationals divide their numerator by their denominator; anything else becomes its string form |
| MetadataCleaning.CleanFailsIff | photomink/main/utils.py:82-100 | Cleaning raises iff a rational with denominator 0 is reachable in the value |
| MetadataCleaning.CleanFixesJsonSafe | photomink/main/utils.py:82-100 | A value that is already JSON-safe is returned unchanged |
| MetadataCleaning.CleanIdempotent | photomink/main/utils.py:82-100 | Cleaning the cleaned value gives the cleaned value again |
| MetadataCleaning.CleanPreservesWellFormed | photomink/main/utils.py:86-87 | Keys are not transformed: dicts with unique keys stay dicts with unique keys |
| Dicts.DictSet | photomink/main/utils.py:147 | After `d[k] = v`, k maps to v and every other key keeps its value; an existing key keeps its place, and a new key is appended |
| Dicts.DictUpdate | photomink/main/utils.py:138-145 | After `d.update(other)` every key not in `other` keeps its value, every key of `other` is present, and the last entry of `other` wins for its key; when `other`'s keys are unique, each of them holds its value from `other` |
| Dicts.UpdateWithNewKeys | photomink/main/utils.py:138-145 | `update` with a dict none of whose keys are present appends its entries in order |
| Dicts.UpdateStep | photomink/main/utils.py:138-145 | The first assignment of such an update appends its entry |
| FileNames.RFind | photomink/main/utils.py:108 | The index of the last occurrence of c, or -1, with no occurrence after it |
| FileNames.Basename | photomink/main/utils.py:108 | The base name is the longest suffix of the path without '/': it contains no '/', and it is the whole path or is preceded by a '/' |
| FileNames.SplitExt | photomink/main/utils.py:119 | `name + ext` is the file name, and a non-empty ext is one '.' followed by no '.' and no '/' |
| FileNames.Lower | photomink/main/utils.py:120 | Lower-casing keeps the length and leaves no upper-case letter; characters outside 'A'..'Z' are unchanged, and each upper-case letter becomes its lower-case partner |
| FileNames.LStrip | photomink/main/utils.py:120 | `lstrip('.')` drops only leading dots, and the result does not start with a dot |
| FileNames.FileExtension | photomink/main/utils.py:119-120 | `file_extension` contains no '.' and no upper-case letter; it is empty iff the splitext extension is; otherwise it is that extension lower-cased, without its dot |
| FileNames.LowerExtension | photomink/main/utils.py:120 | Lower-casing an extension keeps its single leading dot and adds no other dot |
| FileNames.StripOneDot | photomink/main/utils.py:120 | `lstrip('.')` of the extension removes exactly its one dot |
| FileNames.ExtensionEmptyIff | photomink/main/utils.py:119-120 | The extension is empty iff the last path component has no '.', or has only '.'s before its last '.' |
| FileNames.BasenameRFind | photomink/main/utils.py:108 | Searching the base name finds the same last occurrence as searching the path, shifted by the base name's offset |
| FileNames.NoDotNoExtension | photomink/main/utils.py:119-120 | A file name whose last component has no '.' has the empty extension |
| Extraction.ChooseMime | photomink/main/utils.py:123-124 | The sniffed type wins; otherwise a non-empty guess from the extension table; otherwise `application/octet-stream`; the result is never empty when the sniffed type is not |
| Extraction.Category | photomink/main/utils.py:133-179 | IMAGE, VIDEO or AUDIO iff the MIME type starts with `image/`, `video/` or `audio/`; OTHER otherwise |
| Extraction.ImageCollect | photomink/main/utils.py:133-147 | The image branch is IMAGE with no duration; it has dimensions iff the image opened, and then they are the image's size; its dict is `{'error': msg}` when the image does not open or the fields raise, and the six image fields otherwise |
| Extraction.MediaCollect | photomink/main/utils.py:149-176 | The video and audio branches keep their type and have no dimensions; a parsed file gives its stream length as duration and the video or audio fields as dict; an unrecognised file gives no duration and `{}`; a parser exception gives no duration and `{'error': msg}`; an exception while building a recognised file's dict keeps its duration next to `{'error': msg}` |
| Extraction.Collect | photomink/main/utils.py:133-179 | The dispatch gives the MIME type's category; IMAGE runs the image branch and VIDEO/AUDIO the media branch on the probe; dimensions only from an opened image; a duration only from a parsed video or audio file; OTHER collects nothing |
| Extraction.ExifField | photomink/main/utils.py:144 | A missing `_getexif`, None or `{}` gives None; an exception from `_getexif` is raised as it is; otherwise the result is the cleaned EXIF dict, which keeps its keys and holds only JSON-safe values, and the only failure is the zero division |
| Extraction.ImageFields | photomink/main/utils.py:138-145 | The image dict has the keys format, mode, is_animated, n_frames, dpi, exif, each once; `is_animated` and `n_frames` hold the image's values, or False and 1 when it has none; format, mode, dpi and exif are passed through |
| Extraction.VideoFields | photomink/main/utils.py:155-159 | The video dict has the keys bitrate, fps, codec, each once, holding the reported values |
| Extraction.AudioFields | photomink/main/utils.py:169-174 | The audio dict has the keys bitrate, channels, sample_rate, tags, each once; absent or empty tags give `{}`, present tags are kept |
| Extraction.Filename | photomink/main/utils.py:107-115 | A path gives its base name (the part after the last '/'); an uploaded file gives its own name |
| Extraction.FileMetadataOf | photomink/main/utils.py:102-203 | A returned record carries the chosen MIME type, its category, the file name's extension, the input's size and the timestamp; the only exception is the zero division |
| Extraction.ProcessFileMetadata | photomink/main/utils.py:102-203 | The step-by-step orchestrator returns exactly `FileMetadataOf` (the record, or the cleaning's exception) |
| Extraction.ExtractImage | photomink/main/utils.py:135-147 | The image try-block sets the dimensions before it fills the dict, and an exception leaves `{'error': msg}` |
| Extraction.ExtractMedia | photomink/main/utils.py:151-176 | The video/audio try-block takes the duration and the fields from a recognised file, and an exception leaves `{'error': msg}` |
| Extraction.DistinctInitials | photomink/main/utils.py:138-145 | Field names with pairwise distinct initials are unique keys |
| Extraction.ErrorIsNew | photomink/main/utils.py:147 | `metadata['error'] = str(e)` on the empty dict gives a dict holding only `error` |
| Extraction.ImageFieldsAreNew | photomink/main/utils.py:138-145 | The six image fields have unique keys, and `update` on the empty dict gives exactly them |
| Extraction.VideoFieldsAreNew | photomink/main/utils.py:155-159 | The three video fields have unique keys, and `update` on the empty dict gives exactly them |
| Extraction.AudioFieldsAreNew | photomink/main/utils.py:169-174 | The four audio fields have unique keys, and `update` on the empty dict gives exactly them |
| Extraction.Assembled | photomink/main/utils.py:190-203 | A record is returned iff the collected metadata cleans, and it carries the chosen MIME type, the category, the dimensions, the duration and the cleaned metadata; otherwise the cleaning's message is raised |
| Extraction.NameFromFilename | photomink/main/utils.py:107-120 | The record's name plus the extension is the file name, and its extension and size come from the input alone |
| Extraction.DispatchFollowsMime | photomink/main/utils.py:133-179 | The record's type is the MIME type's category; OTHER always returns, with no dimensions, no duration and empty metadata |
| Extraction.ErrorDictCleans | photomink/main/utils.py:191 | An error dict cleans to itself |
| Extraction.ImageFailureRecorded | photomink/main/utils.py:135-147 | An image that does not open is still IMAGE, with no dimensions and metadata holding only the decoder's message |
| Extraction.ExifFailureRecorded | photomink/main/utils.py:136-147 | When building the image fields raises, the dimensions stay set and the metadata holds only the message |
| Extraction.MediaFailureRecorded | photomink/main/utils.py:149-176 | A video or audio file the parser fails on keeps its type, with no duration and metadata holding only the message |
| Extraction.MediaFieldsFailureRecorded | photomink/main/utils.py:153-176 | When building a recognised video or audio file's dict raises, the duration set before it stays, next to metadata holding only the message |
| Extraction.DimensionsOnlyFromImages | photomink/main/utils.py:136-137 | Dimensions appear only on IMAGE records of opened images, and equal the image's size |
| Extraction.CollectedKeysUnique | photomink/main/utils.py:128-179 | Every branch builds a dict with unique keys |
| Extraction.ImageKeysUnique | photomink/main/utils.py:135-147 | The image branch builds a dict with unique keys |
| Extraction.MediaKeysUnique | photomink/main/utils.py:149-176 | The video and audio branches build dicts with unique keys |
| Extraction.MetadataIsJsonSafe | photomink/main/utils.py:190-202 | A returned record's metadata is a JSON-safe dict with unique keys |
| Background.Asset.Load | photomink/main/utils.py:214 | A loaded asset holds the stored row |
| Background.Asset.Complete | photomink/main/utils.py:231-241 | The success assignments give the row `CommitSuccess` describes |
| Background.AssetStore.Get | photomink/main/utils.py:214 | Loading succeeds iff the id is stored, and gives a new instance holding its row; otherwise it raises DoesNotExist |
| Background.AssetStore.Save | photomink/main/utils.py:243 | Saving replaces the row of the asset's id with its fields |
| Background.ScratchSpace.Create | photomink/main/utils.py:219 | A new, empty scratch file |
| Background.ScratchSpace.Write | photomink/main/utils.py:221-222 | The data is appended to the file, and no other file changes |
| Background.ScratchSpace.Unlink | photomink/main/utils.py:228 | The file is removed, and no other file changes |
| Background.Attempt | photomink/main/utils.py:213-228 | An object that cannot be opened or read raises its storage error; a returned record comes from a read object and carries its size; an extraction can raise only the zero division |
| Background.CommitSuccess | photomink/main/utils.py:231-241 | COMPLETED with the extracted type, MIME type, extension, duration and metadata; width and height from the dimensions, or kept when there are none; `processing_error` kept |
| Background.CommitFailure | photomink/main/utils.py:247-249 | FAILED with the message as `processing_error`; every other column unchanged |
| Background.ScratchAfter | photomink/main/utils.py:217-228 | No file but the scratch file changes; the directory is as before when the open fails or the extraction returns; the scratch file stays empty after a failed read and with the copied bytes after a failed extraction |
| Background.RowsAfter | photomink/main/utils.py:209-250 | A run changes at most the row of its own asset, and never adds or removes rows |
| Background.FetchAndExtract | photomink/main/utils.py:217-228 | The with-blocks return `Attempt` (the storage error, or the orchestrator's result on the copied file) and leave the scratch directory as `ScratchAfter` says |
| Background.CopyAndExtract | photomink/main/utils.py:219-228 | The copied file is extracted from, and is unlinked iff the extraction returned |
| Background.WrittenOnce | photomink/main/utils.py:219-228 | Creating, writing and unlinking a new file leaves the directory as it was |
| Background.RecordFailure | photomink/main/utils.py:245-250 | The handler re-loads the asset and writes FAILED and the message; a missing asset raises DoesNotExist and nothing changes |
| Background.ProcessInBackground | photomink/main/utils.py:209-250 | A run leaves the table as `RowsAfter` and the scratch directory as `ScratchAfter` say; it returns iff the asset exists, and otherwise raises DoesNotExist with nothing changed |
| Background.RunEndsTerminal | photomink/main/utils.py:241-248 | After a run the asset is COMPLETED iff the extraction returned, and FAILED iff something raised |
| Background.NoPartialCommit | photomink/main/utils.py:231-250 | Success writes every extracted field and COMPLETED, width and height only with dimensions, and keeps `processing_error`; failure changes only the status and `processing_error` |
| Background.SizeStaysPaired | photomink/main/utils.py:235-237 | Width and height are set together, so a paired row stays paired |
| Background.CommittedMetadataIsJsonSafe | photomink/main/utils.py:240 | A completed asset's stored metadata is a JSON-safe dict with unique keys |
| Background.SuccessKeepsStaleError | photomink/main/utils.py:231-243 | A successful run leaves an earlier `processing_error` in place next to COMPLETED |
| Background.ScratchLeaksIff | photomink/main/utils.py:217-228 | The scratch file survives iff it was created and the run then failed: empty after a failed read, with the copied bytes after a failed extraction; no other file changes |
| Background.ScratchNameGivesEmptyExtension | photomink/main/utils.py:225 | A scratch file name without '.' gives every completed asset the empty extension |
| Background.ImageCommitted | photomink/main/utils.py:231-241 | A readable image whose metadata cleans is committed COMPLETED as IMAGE, with the decoder's width and height |
| Background.UnreadableObjectFails | photomink/main/utils.py:217-221 | A remote object that cannot be opened or read fails the asset with the storage error's message |

## Left out

- Email sending and HTTP error responses (`send_invitation_email`,
  `create_error_response`): outside the metadata pipeline.
- The decoders `filetype.guess`, `mimetypes.guess_type`, `PIL.Image.open`
  and `mutagen.File`: foreign libraries. `Extraction.Probe` gives their
  outcomes as inputs. The audio tags are taken as the dict `dict(audio.tags)`
  gives.
- MetadataCleaning.Clean: raises only the zero division. It does not model
  the `RecursionError` of a cyclic or very deep value (utils.py:86-89), an
  exception raised by a nested `_getexif()` (utils.py:95), or one raised by
  `str(value)` (utils.py:100). Values here are finite trees, and these
  calls are foreign code.
- ExifField: assumes `_getexif` returns the same thing on both of its calls
  (the truth test and the cleaning).
- ProcessFileMetadata: does not model exceptions from opening, sizing or
  reading the file, or from closing it in the `finally` block. These are
  file-system I/O.
- `date_created`: `os.path.getctime` and `datetime.now` are clock and
  file-system I/O. The timestamp is an input, passed through unchanged.
- The `user` argument: neither function uses it.
- `FileMetadata` is a pydantic schema in the source. Its validation and
  coercion are not modelled.
- MetadataCleaning.Divide: real division stands for floating-point division,
  so rounding and overflow are not modelled. Only the zero-denominator error
  is kept.
- FileNames.Lower: lower-cases ASCII letters only, not all of Unicode.
- `Key`: dict keys are strings or integers. Other key types are not
  modelled.
- Background.ProcessInBackground: does not model these failures:
  - a failing `save()`, which would enter the handler;
  - a failing creation of, or write to, the scratch file;
  - a failing `os.unlink`.
- The scratch file's name is an input. It is required to be new, as
  `NamedTemporaryFile` guarantees.
- `logger.exception`: logging only.
- Background.AssetStore: the Django ORM and the database are an in-memory
  map. Only the columns the job reads or writes are kept. Status values
  other than PENDING, COMPLETED and FAILED are not modelled, because
  `photomink/main/models.py` is not part of this model.
- Concurrency: the `ThreadPoolExecutor(max_workers=3)` pool is not modelled.
  Neither are other writers changing the asset between the job's load and
  its save.
