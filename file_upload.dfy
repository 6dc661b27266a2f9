/**
 * The dataset upload: the file type check, the storage path, and the steps
 * `handleFileUpload` takes (upload to storage, insert of the metadata row,
 * the callback) with the `uploading` flag and the file input it resets.
 *
 * The signed-in user, the clock and the outcomes of the storage upload and
 * of the insert are parameters.
 */
module FileUpload {
  import opened Wrappers
  import opened Text

  /** The selected file: its name, MIME type and size in bytes. */
  datatype SelectedFile = SelectedFile(name: string, mimeType: string, size: nat)

  /** The metadata row inserted into `uploaded_files`. */
  datatype FileRow = FileRow(userId: string, fileName: string, filePath: string, fileSize: nat, mimeType: string)

  /** An effect of the handler, in the order it happens. */
  datatype Step =
    | Stored(path: string)          // the upload to the `datasets` bucket is attempted
    | Inserted(row: FileRow)        // the metadata row is inserted
    | Notified(fileId: string)      // `onFileUploaded` is called with the new row's id

  /** The MIME types accepted as they are. */
  const ValidTypes: seq<string> := [
    "text/csv",
    "application/vnd.ms-excel",
    "application/vnd.openxmlformats-officedocument.spreadsheetml.sheet"]

  /** The type check: a listed MIME type, or a name ending in `.csv`. */
  predicate IsAccepted(file: SelectedFile) {
    file.mimeType in ValidTypes || EndsWith(file.name, ".csv")
  }

  /** A file named `<stem>.csv` is accepted whatever type the browser reports. */
  lemma CsvNameAccepted(file: SelectedFile, stem: string)
    requires file.name == stem + ".csv"
    ensures IsAccepted(file)
  {
    assert file.name[|file.name| - 4..] == ".csv";
  }

  /** `${user.id}/${Date.now()}_${file.name}`. */
  function StoragePath(userId: string, now: nat, name: string): (path: string)
    ensures StartsWith(path, userId + "/") && EndsWith(path, name)
  {
    userId + "/" + NatToString(now) + "_" + name
  }

  /**
   * The path names its owner, its time and its file: for a user id without
   * `/`, the first `/`-separated segment is the user id; after it, the first
   * `_`-separated piece is the rendered time, which reads back as `now`, and
   * the rest is the file name.
   */
  lemma PathParts(userId: string, now: nat, name: string)
    requires '/' !in userId
    ensures var path := StoragePath(userId, now, name);
            var rest := path[|userId| + 1..];
            var stamp := NatToString(now);
            Split(path, '/')[0] == userId
            && Split(rest, '_')[0] == stamp
            && DigitsValue(stamp) == now
            && rest[|stamp| + 1..] == name
  {
    var stamp := NatToString(now);
    var rest := stamp + "_" + name;
    assert StoragePath(userId, now, name) == userId + ['/'] + rest;
    SplitAtFirst(userId, '/', rest);
    StampParts(now, name);
  }

  /** After the user id, the rendered time is the first `_`-separated piece and the file name follows it. */
  lemma StampParts(now: nat, name: string)
    ensures var stamp := NatToString(now);
            var rest := stamp + "_" + name;
            Split(rest, '_')[0] == stamp && DigitsValue(stamp) == now && rest[|stamp| + 1..] == name
  {
    var stamp := NatToString(now);
    assert '_' !in stamp;
    assert stamp + "_" + name == stamp + ['_'] + name;
    SplitAtFirst(stamp, '_', name);
    NatToStringValue(now);
  }

  /** The upload component's state and what its handler has done. */
  class Uploader {
    var uploading: bool
    var inputValue: string
    var steps: seq<Step>

    constructor ()
      ensures !uploading && inputValue == [] && steps == []
    {
      uploading := false;
      inputValue := [];
      steps := [];
    }

    /**
     * `handleFileUpload` for the first selected file (`None` when there is
     * none). `userId` is the signed-in user (`None` when there is none),
     * `now` the clock, `uploadOk` and `insertOk` the outcomes of the storage
     * upload and of the insert, `newId` the id of the inserted row.
     */
    method HandleFileUpload(file: Option<SelectedFile>, userId: Option<string>, now: nat,
                            uploadOk: bool, insertOk: bool, newId: string)
      modifies this
      ensures file.None? || !IsAccepted(file.value) ==>
                uploading == old(uploading) && inputValue == old(inputValue) && steps == old(steps)
      ensures file.Some? && IsAccepted(file.value) ==>
                !uploading && inputValue == []
                && steps == old(steps) + UploadSteps(file.value, userId, now, uploadOk, insertOk, newId)
    {
      if file.None? {
        return;
      }
      var f := file.value;
      if !(f.mimeType in ValidTypes) && !EndsWith(f.name, ".csv") {
        return;
      }
      uploading := true;
      if userId.Some? {
        var path := StoragePath(userId.value, now, f.name);
        steps := steps + [Stored(path)];
        if uploadOk {
          steps := steps + [Inserted(FileRow(userId.value, f.name, path, f.size, f.mimeType))];
          if insertOk {
            steps := steps + [Notified(newId)];
          }
        }
      }
      uploading := false;
      inputValue := [];
    }
  }

  /** The steps an accepted file goes through, stopping at the first failure. */
  function UploadSteps(file: SelectedFile, userId: Option<string>, now: nat,
                       uploadOk: bool, insertOk: bool, newId: string): seq<Step> {
    if userId.None? then []
    else
      var path := StoragePath(userId.value, now, file.name);
      var row := FileRow(userId.value, file.name, path, file.size, file.mimeType);
      if !uploadOk then [Stored(path)]
      else if !insertOk then [Stored(path), Inserted(row)]
      else [Stored(path), Inserted(row), Notified(newId)]
  }

  /**
   * The order of the steps: a row is inserted only after the upload to its
   * path and only when that upload succeeded, and the callback fires only
   * after both succeeded.
   */
  lemma StepOrder(file: SelectedFile, userId: Option<string>, now: nat, uploadOk: bool, insertOk: bool, newId: string)
    ensures var s := UploadSteps(file, userId, now, uploadOk, insertOk, newId);
            (forall i :: 0 <= i < |s| && s[i].Inserted? ==> uploadOk && i >= 1 && s[i - 1] == Stored(s[i].row.filePath))
            && (forall i :: 0 <= i < |s| && s[i].Notified? ==> uploadOk && insertOk && i >= 1 && s[i - 1].Inserted?)
            && (s != [] ==> s[0].Stored? && StartsWith(s[0].path, userId.value + "/"))
            && (|s| == 3 <==> userId.Some? && uploadOk && insertOk)
  {
  }
}
