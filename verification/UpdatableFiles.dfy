/** `UpdatableFile` and `FileProvider`: objects that change their update flag and the cache. */
module UpdatableFiles {
  import opened Options
  import opened Downloads
  import opened CacheFiles
  import opened Stamps
  import UpdateProtocol

  /** The cache folder of a section, shared by the files of that section. */
  class SectionFolder {
    var files: Folder

    constructor ()
      ensures files == map[]
    {
      files := map[];
    }
  }

  class UpdatableFile {
    const name: string
    const updateUrl: Url
    const sectionPath: string
    const folder: SectionFolder
    var defaultPath: string
    var updateRunning: bool
    var connected: bool

    ghost predicate Valid()
      reads this`updateRunning, this`connected
    {
      updateRunning == connected && (updateRunning ==> name != "")
    }

    constructor (base: string, section: string, name: string, defaultPath: string, path: string, folder: SectionFolder)
      ensures Valid() && !updateRunning && this.name == name && this.folder == folder
      ensures this.defaultPath == defaultPath && sectionPath == path
      ensures updateUrl == UpdateProtocol.UrlOf(base, section, name)
    {
      this.name, this.defaultPath, this.sectionPath, this.folder := name, defaultPath, path, folder;
      updateUrl := UpdateProtocol.UrlOf(base, section, name);
      updateRunning, connected := false, false;
    }

    function CachePath(listing: seq<string>): string {
      var first := First(listing, name);
      if first.None? then "" else sectionPath + "/" + first.value
    }

    /** Starts at most one download; a cached version makes it conditional on its timestamp. */
    method Update(downloader: Downloader, listing: seq<string>) returns (since: Option<Stamp>)
      requires Valid() && downloader.Valid()
      modifies this`updateRunning, this`connected, downloader
      ensures Valid() && downloader.Valid()
      ensures updateRunning <==> name != ""
      ensures var starts := !old(updateRunning) && name != "";
        && downloader.View() == (if starts then old(downloader.View()).Schedule(updateUrl) else old(downloader.View()))
        && downloader.scheduled == old(downloader.scheduled) + (if starts then [updateUrl] else [])
        && downloader.completed == old(downloader.completed)
        && since == (if starts then TimestampOf(CachePath(listing)) else None)
    {
      since := None;
      if !updateRunning && name != "" {
        updateRunning := true;
        connected := true;
        since := TimestampOf(CachePath(listing));
        downloader.ScheduleDownload(updateUrl);
      }
      assert old(downloader.scheduled) + [] == old(downloader.scheduled);
    }

    method CleanupAfterUpdate()
      modifies this`updateRunning, this`connected
      ensures !updateRunning && !connected
    {
      connected := false;
      updateRunning := false;
    }

    /** Returns whether the file reports that it was updated. */
    method OnDownloadSuccess(url: Url, stamp: Stamp, data: Data, w: WriteResult) returns (updated: bool)
      requires Valid()
      modifies this`updateRunning, this`connected, folder
      ensures Valid()
      ensures updateRunning == (old(updateRunning) && url != updateUrl)
      ensures updated == (url == updateUrl && WriteData(old(folder.files), CacheName(name, stamp), data, w).1)
      ensures folder.files ==
        if url == updateUrl then Store(old(folder.files), Downloaded(name, stamp, data, w)) else old(folder.files)
    {
      updated := false;
      if url == updateUrl {
        var files, written := WriteDataToFile(stamp, data, w);
        updated := written;
        CleanupAfterUpdate();
        folder.files := files - {DirtyMark(name)};
      }
    }

    method WriteDataToFile(stamp: Stamp, data: Data, w: WriteResult) returns (files: Folder, written: bool)
      ensures (files, written) == WriteData(folder.files, CacheName(name, stamp), data, w)
    {
      var path := CacheName(name, stamp);
      files, written := folder.files, false;
      if path in files {
        return;
      }
      match w
      case CannotOpen =>
      case Short(k) =>
        if k < |data| {
          files := files[path := data[..k]];
        } else {
          files, written := files[path := data], true;
        }
      case Complete =>
        files, written := files[path := data], true;
    }

    method OnDownloadFailed(url: Url)
      requires Valid()
      modifies this`updateRunning, this`connected
      ensures Valid() && updateRunning == (old(updateRunning) && url != updateUrl)
    {
      if url == updateUrl {
        CleanupAfterUpdate();
      }
    }

    method OnDownloadUnnecessary(url: Url)
      requires Valid()
      modifies this`updateRunning, this`connected, folder
      ensures Valid() && updateRunning == (old(updateRunning) && url != updateUrl)
      ensures folder.files ==
        if url == updateUrl then Store(old(folder.files), NotModified(name)) else old(folder.files)
    {
      if url == updateUrl {
        CleanupAfterUpdate();
        folder.files := folder.files - {DirtyMark(name)};
      }
    }

    /** The newest cached version, else the bundled resource, else the default; a dirty file
        is updated on the way. */
    method LookupPath(downloader: Downloader, listing: seq<string>, resource: Option<string>) returns (path: string)
      requires Valid() && downloader.Valid()
      modifies this`updateRunning, this`connected, downloader
      ensures Valid() && downloader.Valid()
      ensures path ==
        if name == "" then defaultPath
        else if CachePath(listing) != "" then CachePath(listing)
        else if resource.Some? then resource.value
        else defaultPath
      ensures updateRunning == (old(updateRunning) || (name != "" && DirtyMark(name) in folder.files))
      ensures var starts := !old(updateRunning) && updateRunning;
        && downloader.View() == (if starts then old(downloader.View()).Schedule(updateUrl) else old(downloader.View()))
        && downloader.scheduled == old(downloader.scheduled) + (if starts then [updateUrl] else [])
    {
      assert old(downloader.scheduled) + [] == old(downloader.scheduled);
      if name == "" {
        return defaultPath;
      }
      var cached := CachePath(listing);
      path := if cached != "" then cached else if resource.Some? then resource.value else defaultPath;
      if DirtyMark(name) in folder.files {
        var _ := Update(downloader, listing);
      }
    }

    method MarkDirty()
      modifies folder
      ensures folder.files == if name == "" || DirtyMark(name) in old(folder.files) then old(folder.files)
        else old(folder.files)[DirtyMark(name) := []]
    {
      if name != "" && DirtyMark(name) !in folder.files {
        folder.files := folder.files[DirtyMark(name) := []];
      }
    }
  }

  /** One object for each key; a file without a name is never shared. */
  class FileProvider {
    const base: string
    var files: map<string, UpdatableFile>

    constructor (base: string)
      ensures files == map[] && this.base == base
    {
      this.base := base;
      files := map[];
    }

    /** The registered file with the new default path, or a new file, registered if it has a
        name; nothing else changes. */
    method GetFile(section: string, name: string, defaultPath: string, path: string, folder: SectionFolder)
        returns (file: UpdatableFile)
      modifies this`files, files.Values`defaultPath
      ensures var key := UpdateProtocol.Key(section, name);
        if key in old(files) then file == old(files)[key] && files == old(files)
        else
          && fresh(file) && file.Valid() && !file.updateRunning && file.name == name && file.folder == folder
          && file.updateUrl == UpdateProtocol.UrlOf(base, section, name) && file.sectionPath == path
          && files == (if name == "" then old(files) else old(files)[key := file])
      ensures file.defaultPath == defaultPath
      ensures forall f :: f in old(files.Values) && f != file ==> f.defaultPath == old(f.defaultPath)
    {
      var key := UpdateProtocol.Key(section, name);
      if key in files {
        file := files[key];
        assert file in files.Values;
        if file.defaultPath != defaultPath {
          file.defaultPath := defaultPath;
        }
      } else {
        file := new UpdatableFile(base, section, name, defaultPath, path, folder);
        if name != "" {
          files := files[key := file];
        }
      }
    }
  }
}
