/** `process_file_metadata_background`: load the asset, copy the remote
    object into a scratch file, run process_file_metadata on it, and commit
    either the extracted fields with status COMPLETED or, on any exception,
    status FAILED with the exception's message on a freshly loaded asset.
    The asset table, the scratch directory and the remote object are
    in-memory stand-ins for the database, the local disk and the storage
    backend. */
module Background {
  import opened Wrappers
  import opened MetadataCleaning
  import opened FileNames
  import opened Extraction

  type AssetId = int
  type Byte = bv8

  datatype Status = Pending | Completed | Failed

  /** The message of the exception `Asset.objects.get` raises for a missing id. */
  const DoesNotExist: string := "Asset matching query does not exist."

  /** The persisted columns of an asset that the processing reads or writes;
      `Option` marks a value that may be None. */
  datatype AssetRow = AssetRow(
    status: Status,
    fileType: Option<FileType>,
    mimeType: Option<string>,
    fileExtension: Option<string>,
    width: Option<int>,
    height: Option<int>,
    duration: Option<real>,
    metadata: seq<Entry>,
    processingError: Option<string>)

  /** A model instance loaded from the table: its fields are assigned one by
      one and written back by `save`. */
  class Asset {
    const id: AssetId
    var status: Status
    var fileType: Option<FileType>
    var mimeType: Option<string>
    var fileExtension: Option<string>
    var width: Option<int>
    var height: Option<int>
    var duration: Option<real>
    var metadata: seq<Entry>
    var processingError: Option<string>

    /** The columns as they would be saved now. */
    function Row(): AssetRow
      reads this
    {
      AssetRow(status, fileType, mimeType, fileExtension, width, height,
               duration, metadata, processingError)
    }

    constructor Load(id: AssetId, row: AssetRow)
      ensures this.id == id && Row() == row
    {
      this.id := id;
      status := row.status;
      fileType := row.fileType;
      mimeType := row.mimeType;
      fileExtension := row.fileExtension;
      width := row.width;
      height := row.height;
      duration := row.duration;
      metadata := row.metadata;
      processingError := row.processingError;
    }

    /** The success path's assignments: the extracted fields, width and
        height only when there are dimensions, and COMPLETED. */
    method Complete(fm: FileMetadata)
      modifies this
      ensures Row() == CommitSuccess(old(Row()), fm)
    {
      fileType := Some(fm.fileType);
      mimeType := Some(fm.mimeType);
      fileExtension := Some(fm.fileExtension);
      if fm.dimensions.Some? {
        width := Some(fm.dimensions.value.0);
        height := Some(fm.dimensions.value.1);
      }
      duration := fm.duration;
      metadata := fm.metadata;
      status := Completed;
    }
  }

  /** The asset table. */
  class AssetStore {
    var rows: map<AssetId, AssetRow>

    /** `Asset.objects.get(id=id)`: a new instance holding the stored row,
        or the DoesNotExist exception. */
    method Get(id: AssetId) returns (r: Result<Asset>)
      ensures r.Ok? <==> id in rows
      ensures r.Ok? ==> fresh(r.value) && r.value.id == id && r.value.Row() == rows[id]
      ensures r.Err? ==> r.msg == DoesNotExist
    {
      if id in rows {
        var a := new Asset.Load(id, rows[id]);
        r := Ok(a);
      } else {
        r := Err(DoesNotExist);
      }
    }

    /** `asset.save()`: the row of the asset's id becomes its fields. */
    method Save(a: Asset)
      modifies this
      ensures rows == old(rows)[a.id := a.Row()]
    {
      rows := rows[a.id := a.Row()];
    }
  }

  /** The local scratch directory: file name to contents. */
  class ScratchSpace {
    var files: map<string, seq<Byte>>

    /** `NamedTemporaryFile(delete=False)`: a new, empty file. */
    method Create(name: string)
      requires name !in files
      modifies this
      ensures files == old(files)[name := []]
    {
      files := files[name := []];
    }

    /** `write` and `flush` of the whole contents to a file just created. */
    method Write(name: string, data: seq<Byte>)
      requires name in files
      modifies this
      ensures files == old(files)[name := old(files)[name] + data]
    {
      files := files[name := files[name] + data];
    }

    /** `os.unlink`. */
    method Unlink(name: string)
      requires name in files
      modifies this
      ensures files == old(files) - {name}
    {
      files := files - {name};
    }
  }

  /** What `default_storage.open(file_path)` and `read()` do: the open
      raises before any scratch file exists, the read raises after it was
      created. */
  datatype RemoteObject = OpenFails(msg: string) | ReadFails(msg: string) | Fetched(data: seq<Byte>)

  /** How the background function ends: it returns, or an exception escapes
      its handler. */
  datatype Outcome = Returned | Raised(msg: string)

  /** The metadata record the try-block obtains for the copied scratch file
      `tempPath`, or the message of the exception it raises first. */
  function Attempt(remote: RemoteObject, tempPath: string, probe: Probe, dateCreated: Timestamp): (r: Result<FileMetadata>)
    ensures !remote.Fetched? ==> r == Err(remote.msg)
    ensures r.Ok? ==> remote.Fetched? && r.value.size == |remote.data| && r.value.dateCreated == dateCreated
    ensures remote.Fetched? && r.Err? ==> r.msg == ZeroDivision
  {
    match remote
    case OpenFails(m) => Err(m)
    case ReadFails(m) => Err(m)
    case Fetched(data) => FileMetadataOf(LocalPath(tempPath, |data|), probe, dateCreated)
  }

  /** The success write: the extracted fields and COMPLETED; width and height
      only when there are dimensions; `processing_error` as it was. */
  function CommitSuccess(row: AssetRow, fm: FileMetadata): (r: AssetRow)
    ensures r.status == Completed && r.processingError == row.processingError
    ensures r.fileType == Some(fm.fileType) && r.mimeType == Some(fm.mimeType)
    ensures r.fileExtension == Some(fm.fileExtension)
    ensures r.duration == fm.duration && r.metadata == fm.metadata
    ensures fm.dimensions.Some? ==> r.width.Some? && r.height.Some? && (r.width.value, r.height.value) == fm.dimensions.value
    ensures fm.dimensions.None? ==> r.width == row.width && r.height == row.height
  {
    AssetRow(
      Completed, Some(fm.fileType), Some(fm.mimeType), Some(fm.fileExtension),
      if fm.dimensions.Some? then Some(fm.dimensions.value.0) else row.width,
      if fm.dimensions.Some? then Some(fm.dimensions.value.1) else row.height,
      fm.duration, fm.metadata, row.processingError)
  }

  /** The failure write on the re-loaded row: FAILED and the message. */
  function CommitFailure(row: AssetRow, msg: string): (r: AssetRow)
    ensures r.status == Failed && r.processingError == Some(msg)
    ensures r.(status := row.status, processingError := row.processingError) == row
  {
    row.(status := Failed, processingError := Some(msg))
  }

  /** The asset table after one run for `id`. A missing asset raises in the
      handler too, and nothing is written. */
  function RowsAfter(rows: map<AssetId, AssetRow>, id: AssetId, remote: RemoteObject,
                     tempPath: string, probe: Probe, dateCreated: Timestamp): (r: map<AssetId, AssetRow>)
    ensures r.Keys == rows.Keys
    ensures forall j :: j in rows && j != id ==> r[j] == rows[j]
  {
    if id !in rows then rows
    else
      match Attempt(remote, tempPath, probe, dateCreated)
      case Ok(fm) => rows[id := CommitSuccess(rows[id], fm)]
      case Err(m) => rows[id := CommitFailure(rows[id], m)]
  }

  /** The scratch directory after one run that found its asset: the scratch
      file is removed only after a successful extraction; a failing read or
      extraction leaves it behind with what had been written. */
  function ScratchAfter(files: map<string, seq<Byte>>, remote: RemoteObject, tempPath: string,
                        probe: Probe, dateCreated: Timestamp): (r: map<string, seq<Byte>>)
    ensures forall f :: f != tempPath ==> (f in r <==> f in files)
    ensures forall f :: f != tempPath && f in r ==> r[f] == files[f]
    ensures remote.OpenFails? || Attempt(remote, tempPath, probe, dateCreated).Ok? ==> r == files
    ensures remote.ReadFails? ==> tempPath in r && r[tempPath] == []
    ensures remote.Fetched? && Attempt(remote, tempPath, probe, dateCreated).Err? ==>
      tempPath in r && r[tempPath] == remote.data
  {
    match remote
    case OpenFails(_) => files
    case ReadFails(_) => files[tempPath := []]
    case Fetched(data) =>
      if FileMetadataOf(LocalPath(tempPath, |data|), probe, dateCreated).Ok? then files
      else files[tempPath := data]
  }

  /** The `with` blocks of the try-block: open the remote object, copy it into
      the new scratch file `tempPath`, run process_file_metadata on that
      file, and unlink it once that has returned. */
  method FetchAndExtract(scratch: ScratchSpace, remote: RemoteObject, tempPath: string,
                         probe: Probe, dateCreated: Timestamp)
    returns (result: Result<FileMetadata>)
    requires tempPath !in scratch.files
    modifies scratch
    ensures result == Attempt(remote, tempPath, probe, dateCreated)
    ensures scratch.files == ScratchAfter(old(scratch.files), remote, tempPath, probe, dateCreated)
  {
    match remote {
      case OpenFails(m) =>
        result := Err(m);
      case ReadFails(m) =>
        scratch.Create(tempPath);
        result := Err(m);
      case Fetched(data) =>
        result := CopyAndExtract(scratch, data, tempPath, probe, dateCreated);
    }
  }

  /** The inner `with` block once the remote object has been read: write
      `data` to the new scratch file, extract from it, and unlink it when the
      extraction returned. */
  method CopyAndExtract(scratch: ScratchSpace, data: seq<Byte>, tempPath: string,
                        probe: Probe, dateCreated: Timestamp)
    returns (result: Result<FileMetadata>)
    requires tempPath !in scratch.files
    modifies scratch
    ensures result == FileMetadataOf(LocalPath(tempPath, |data|), probe, dateCreated)
    ensures scratch.files == if result.Ok? then old(scratch.files) else old(scratch.files)[tempPath := data]
  {
    scratch.Create(tempPath);
    scratch.Write(tempPath, data);
    WrittenOnce(old(scratch.files), tempPath, data);
    result := ProcessFileMetadata(LocalPath(tempPath, |scratch.files[tempPath]|), probe, dateCreated);
    if result.Ok? {
      scratch.Unlink(tempPath);
    }
  }

  /** Creating a file, writing `data` to it and unlinking it leaves the
      directory as it was. */
  lemma WrittenOnce(files: map<string, seq<Byte>>, name: string, data: seq<Byte>)
    requires name !in files
    ensures files[name := []][name := [] + data] == files[name := data]
    ensures files[name := data] - {name} == files
  {
    assert [] + data == data;
  }

  /** The exception handler: re-load the asset, set FAILED and the message,
      and save; a missing asset makes the handler's own `get` raise. */
  method RecordFailure(store: AssetStore, id: AssetId, msg: string) returns (outcome: Outcome)
    modifies store
    ensures id in old(store.rows) ==>
      outcome == Returned && store.rows == old(store.rows)[id := CommitFailure(old(store.rows)[id], msg)]
    ensures id !in old(store.rows) ==>
      outcome == Raised(DoesNotExist) && store.rows == old(store.rows)
  {
    var reloaded := store.Get(id);
    if reloaded.Err? {
      outcome := Raised(reloaded.msg);
    } else {
      var asset := reloaded.value;
      asset.status := Failed;
      asset.processingError := Some(msg);
      store.Save(asset);
      outcome := Returned;
    }
  }

  /** process_file_metadata_background(asset_id, file_path) with the scratch
      file named `tempPath`: the try-block, and the handler for whatever it
      raises. */
  method ProcessInBackground(store: AssetStore, scratch: ScratchSpace, id: AssetId,
                             remote: RemoteObject, tempPath: string, probe: Probe,
                             dateCreated: Timestamp)
    returns (outcome: Outcome)
    requires tempPath !in scratch.files
    modifies store, scratch
    ensures outcome == if id in old(store.rows) then Returned else Raised(DoesNotExist)
    ensures store.rows == RowsAfter(old(store.rows), id, remote, tempPath, probe, dateCreated)
    ensures scratch.files ==
      if id in old(store.rows) then ScratchAfter(old(scratch.files), remote, tempPath, probe, dateCreated)
      else old(scratch.files)
  {
    var loaded := store.Get(id);
    if loaded.Err? {
      outcome := RecordFailure(store, id, loaded.msg);
      return;
    }
    var asset := loaded.value;
    var result := FetchAndExtract(scratch, remote, tempPath, probe, dateCreated);
    if result.Err? {
      outcome := RecordFailure(store, id, result.msg);
      return;
    }
    asset.Complete(result.value);
    store.Save(asset);
    outcome := Returned;
  }

  /** Width and height are both set or both unset. */
  predicate SizePaired(row: AssetRow) {
    row.width.Some? <==> row.height.Some?
  }

  /** A run that found its asset leaves it COMPLETED when the extraction
      returned and FAILED when anything in the try-block raised. */
  lemma RunEndsTerminal(rows: map<AssetId, AssetRow>, id: AssetId, remote: RemoteObject,
                        tempPath: string, probe: Probe, dateCreated: Timestamp)
    requires id in rows
    ensures var after := RowsAfter(rows, id, remote, tempPath, probe, dateCreated)[id];
      && (after.status == Completed <==> Attempt(remote, tempPath, probe, dateCreated).Ok?)
      && (after.status == Failed <==> Attempt(remote, tempPath, probe, dateCreated).Err?)
  {
  }

  /** No partial commit: either every extracted field and COMPLETED are
      written, or only FAILED and the message, and nothing else of the row
      changes. */
  lemma NoPartialCommit(rows: map<AssetId, AssetRow>, id: AssetId, remote: RemoteObject,
                        tempPath: string, probe: Probe, dateCreated: Timestamp)
    requires id in rows
    ensures var before := rows[id];
      var after := RowsAfter(rows, id, remote, tempPath, probe, dateCreated)[id];
      match Attempt(remote, tempPath, probe, dateCreated)
      case Ok(fm) =>
        && after.status == Completed && after.fileType == Some(fm.fileType)
        && after.mimeType == Some(fm.mimeType) && after.fileExtension == Some(fm.fileExtension)
        && after.duration == fm.duration && after.metadata == fm.metadata
        && (fm.dimensions.Some? ==> after.width == Some(fm.dimensions.value.0) && after.height == Some(fm.dimensions.value.1))
        && (fm.dimensions.None? ==> after.width == before.width && after.height == before.height)
        && after.processingError == before.processingError
      case Err(m) =>
        after == before.(status := Failed, processingError := Some(m))
  {
  }

  /** Width and height stay paired across a run. */
  lemma SizeStaysPaired(rows: map<AssetId, AssetRow>, id: AssetId, remote: RemoteObject,
                        tempPath: string, probe: Probe, dateCreated: Timestamp)
    requires id in rows && SizePaired(rows[id])
    ensures SizePaired(RowsAfter(rows, id, remote, tempPath, probe, dateCreated)[id])
  {
  }

  /** The stored metadata of a completed run is a JSON-safe dict with unique
      keys. */
  lemma CommittedMetadataIsJsonSafe(rows: map<AssetId, AssetRow>, id: AssetId, remote: RemoteObject,
                                    tempPath: string, probe: Probe, dateCreated: Timestamp)
    requires id in rows
    ensures var after := RowsAfter(rows, id, remote, tempPath, probe, dateCreated)[id];
      after.status == Completed ==> JsonSafe(Dict(after.metadata)) && UniqueKeys(after.metadata)
  {
    if Attempt(remote, tempPath, probe, dateCreated).Ok? {
      MetadataIsJsonSafe(LocalPath(tempPath, |remote.data|), probe, dateCreated);
    }
  }

  /** A successful run does not clear `processing_error`: an asset that failed
      before and succeeds now is COMPLETED and still carries the old message. */
  lemma SuccessKeepsStaleError(rows: map<AssetId, AssetRow>, id: AssetId, remote: RemoteObject,
                               tempPath: string, probe: Probe, dateCreated: Timestamp)
    requires id in rows && rows[id].processingError.Some?
    ensures var after := RowsAfter(rows, id, remote, tempPath, probe, dateCreated)[id];
      Attempt(remote, tempPath, probe, dateCreated).Ok? ==>
        after.status == Completed && after.processingError == rows[id].processingError
  {
  }

  /** The scratch file survives a run exactly when it was created and the
      run then failed; a failed read leaves it empty, a failed extraction
      leaves the copied contents. No other file changes. */
  lemma ScratchLeaksIff(files: map<string, seq<Byte>>, remote: RemoteObject, tempPath: string,
                        probe: Probe, dateCreated: Timestamp)
    requires tempPath !in files
    ensures var after := ScratchAfter(files, remote, tempPath, probe, dateCreated);
      && (tempPath in after <==> !remote.OpenFails? && Attempt(remote, tempPath, probe, dateCreated).Err?)
      && (remote.ReadFails? ==> tempPath in after && after[tempPath] == [])
      && (tempPath in after && remote.Fetched? ==> after[tempPath] == remote.data)
      && (forall f :: f != tempPath ==> (f in after <==> f in files))
      && (forall f :: f != tempPath && f in files ==> after[f] == files[f])
  {
  }

  /** A scratch file whose name has no '.' (a NamedTemporaryFile made
      without a suffix) gives every completed asset the empty extension, so
      the stored `file_extension` never reflects the original file's name. */
  lemma ScratchNameGivesEmptyExtension(rows: map<AssetId, AssetRow>, id: AssetId, remote: RemoteObject,
                                       tempPath: string, probe: Probe, dateCreated: Timestamp)
    requires id in rows && '.' !in Basename(tempPath)
    ensures Attempt(remote, tempPath, probe, dateCreated).Ok? ==>
      RowsAfter(rows, id, remote, tempPath, probe, dateCreated)[id].fileExtension == Some("")
  {
    if Attempt(remote, tempPath, probe, dateCreated).Ok? {
      var input := LocalPath(tempPath, |remote.data|);
      NameFromFilename(input, probe, dateCreated);
      var b := Basename(tempPath);
      assert Filename(input) == b;
      assert Basename(b) == b by {
        assert RFind(b, '/') == -1;
      }
      NoDotNoExtension(b);
    }
  }

  /** A readable image whose metadata cleans is committed COMPLETED as an
      IMAGE with the decoder's width and height. */
  lemma ImageCommitted(rows: map<AssetId, AssetRow>, id: AssetId, remote: RemoteObject,
                       tempPath: string, probe: Probe, dateCreated: Timestamp)
    requires id in rows && remote.Fetched?
    requires Category(ChooseMime(probe.sniffed, probe.guessed)) == Image && probe.image.ImageOpens?
    ensures var after := RowsAfter(rows, id, remote, tempPath, probe, dateCreated)[id];
      Attempt(remote, tempPath, probe, dateCreated).Ok? ==>
        && after.status == Completed && after.fileType == Some(Image)
        && after.width == Some(probe.image.img.width) && after.height == Some(probe.image.img.height)
  {
    var input := LocalPath(tempPath, |remote.data|);
    Assembled(input, probe, dateCreated);
  }

  /** A remote object that cannot be opened or read fails the asset with the
      storage error's message. */
  lemma UnreadableObjectFails(rows: map<AssetId, AssetRow>, id: AssetId, remote: RemoteObject,
                              tempPath: string, probe: Probe, dateCreated: Timestamp)
    requires id in rows && !remote.Fetched?
    ensures var after := RowsAfter(rows, id, remote, tempPath, probe, dateCreated)[id];
      after.status == Failed && after.processingError == Some(remote.msg)
  {
  }
}
