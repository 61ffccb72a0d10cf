/** The objects together: every call on them is a step, or some steps, of the protocol. */
module UpdateService {
  import opened Options
  import opened Downloads
  import opened CacheFiles
  import opened UpdatableFiles
  import Protocol = UpdateProtocol

  /** The object stands where the protocol says. */
  ghost predicate Shows(file: UpdatableFile, f: Protocol.File, connected: bool)
    reads file`updateRunning, file`connected
  {
    file.name == f.name && file.updateUrl == f.url && file.updateRunning == f.running && file.connected == connected
  }

  ghost predicate Distinct(objects: seq<UpdatableFile>) {
    forall i, j :: 0 <= i < j < |objects| ==> objects[i] != objects[j]
  }

  ghost predicate AllShow(objects: seq<UpdatableFile>, s: Protocol.System)
    reads objects`updateRunning, objects`connected
  {
    && |objects| == |s.files| && Distinct(objects) && Protocol.InRange(s.connections, |objects|)
    && forall i :: 0 <= i < |objects| ==> objects[i].Valid() && Shows(objects[i], s.files[i], i in s.connections)
  }

  ghost predicate Registered(
      files: map<string, UpdatableFile>, objects: seq<UpdatableFile>, table: map<string, Protocol.Id>) {
    && files.Keys == table.Keys
    && forall k :: k in table ==> table[k] < |objects| && files[k] == objects[table[k]]
  }

  ghost predicate Queued(downloader: Downloader, s: Protocol.System)
    reads downloader
  {
    downloader.View() == s.q && downloader.scheduled == s.scheduled && downloader.completed == s.completed
  }

  /** No slot is in the middle of its work; a signal is about the current request. */
  ghost predicate Between(s: Protocol.System) {
    s.e.Emitting? ==> s.e.slot.NoSlot? && s.q.active && s.q.current == Some(s.e.url)
  }

  /** The next receiver is still connected, and the signal is about its URL. */
  predicate Mine(s: Protocol.System)
    requires Protocol.Enabled(s, Protocol.Deliver)
  {
    var f := s.e.receivers[0];
    f in s.connections && s.files[f].url == s.e.url
  }

  /** One delivery of a signal to the next receiver: nothing, or the slot from its call to the
      reset of the flag. */
  function Delivered(s: Protocol.System): Protocol.System
    requires Protocol.Enabled(s, Protocol.Deliver)
  {
    var f := s.e.receivers[0];
    var t := s.(e := s.e.(receivers := s.e.receivers[1..]));
    if Mine(s) then
      t.(files := s.files[f := s.files[f].(running := false)], connections := Protocol.Without(s.connections, f))
    else t
  }

  /** That is one step of the protocol, or three. */
  lemma DeliveredIsSteps(s: Protocol.System)
    requires Protocol.Enabled(s, Protocol.Deliver) && Between(s)
    ensures var t := Protocol.Next(s, Protocol.Deliver);
      if !Mine(s) then t == Delivered(s)
      else
        && Protocol.Enabled(t, Protocol.Disconnect)
        && var u := Protocol.Next(t, Protocol.Disconnect);
        && Protocol.Enabled(u, Protocol.Clear)
        && Protocol.Next(u, Protocol.Clear) == Delivered(s)
  {
  }

  /** What a signal does to the folder of the file that takes it. */
  function Stored(files: Folder, name: string, signal: Signal, w: WriteResult): Folder {
    match signal
    case Success(lastModified, data) => Store(files, Downloaded(name, lastModified, data, w))
    case Unnecessary => Store(files, NotModified(name))
    case Failed(_) => Store(files, NotDownloaded(name))
  }

  /** What a reply does, in the end, to the folder of the file it is for. */
  lemma ReplyEffect(files: Folder, name: string, r: Reply, w: WriteResult)
    ensures var after := Stored(files, name, SignalOf(r), w);
      && (DirtyMark(name) in after <==> DirtyMark(name) in files && (!r.trusted || r.status !in {200, 304}))
      && (!r.trusted || r.status != 200 ==> forall n, s :: HasVersion(after, n, s) <==> HasVersion(files, n, s))
      && (!r.trusted || r.status !in {200, 304} ==> after == files)
      && (r.trusted && r.status == 304 ==> after == files - {DirtyMark(name)})
      && (r.trusted && r.status == 200 && w.Complete? && CacheName(name, TimeOf(r)) !in files ==>
            && CacheName(name, TimeOf(r)) in after && after[CacheName(name, TimeOf(r))] == r.data)
  {
    OutcomeIs(r);
    var after := Stored(files, name, SignalOf(r), w);
    forall n, s
      ensures CacheName(n, s) != DirtyMark(name)
    {
      DirtyIsNoVersion(name, n, s);
    }
    DirtyIsNoVersion(name, name, TimeOf(r));
  }

  lemma RestInRange(order: seq<nat>, n: nat, mine: nat)
    requires order != [] && Protocol.InRange(order, n)
    ensures order[0] < n && Protocol.InRange(order[1..], n)
    ensures mine in order ==> mine == order[0] || mine in order[1..]
  {
    assert order[0] in order && forall f :: f in order[1..] ==> f in order;
    assert order == [order[0]] + order[1..];
  }

  lemma OneMoreShows(objects: seq<UpdatableFile>, file: UpdatableFile, s: Protocol.System, t: Protocol.System)
    requires AllShow(objects, s) && file !in objects && file.Valid()
    requires |t.files| == |s.files| + 1 && t.files[..|s.files|] == s.files && t.connections == s.connections
    requires Shows(file, t.files[|s.files|], false)
    ensures AllShow(objects + [file], t)
  {
    forall i | 0 <= i < |s.files|
      ensures t.files[i] == s.files[i]
    {
      assert t.files[..|s.files|][i] == t.files[i];
    }
  }

  lemma OneMoreRegistered(files: map<string, UpdatableFile>, objects: seq<UpdatableFile>,
      table: map<string, Protocol.Id>, key: string, file: UpdatableFile)
    requires Registered(files, objects, table)
    ensures Registered(files, objects + [file], table)
    ensures Registered(files[key := file], objects + [file], table[key := |objects|])
  {
  }

  class Service {
    const provider: FileProvider
    const downloader: Downloader
    /** Every file that was handed out, oldest first. */
    var objects: seq<UpdatableFile>
    /** Where the protocol stands between two calls, and how it got there. */
    ghost var s: Protocol.System
    ghost var trace: seq<Protocol.System>
    ghost var evs: seq<Protocol.Event>

    ghost predicate Linked()
      reads this
    {
      Protocol.IsRun(trace, evs) && trace[|evs|] == s
    }

    ghost predicate Valid()
      reads this, provider, downloader, objects`updateRunning, objects`connected
    {
      && Linked() && Between(s)
      && downloader.Valid() && Queued(downloader, s)
      && AllShow(objects, s) && Registered(provider.files, objects, s.table)
    }

    constructor (base: string)
      ensures Valid() && s == Protocol.INITIAL && fresh(provider) && fresh(downloader)
    {
      provider := new FileProvider(base);
      downloader := new Downloader();
      objects := [];
      s, trace, evs := Protocol.INITIAL, [Protocol.INITIAL], [];
    }

    /** One more event of the protocol. */
    ghost method Record(ev: Protocol.Event)
      requires Linked() && Protocol.Enabled(s, ev)
      modifies this`s, this`trace, this`evs
      ensures Linked() && s == Protocol.Next(old(s), ev) && evs == old(evs) + [ev]
    {
      Protocol.ExtendRun(trace, evs, ev, Protocol.Next(s, ev));
      s := Protocol.Next(s, ev);
      trace := trace + [s];
      evs := evs + [ev];
    }

    /** The file that is registered for this key, or one that did not exist before. */
    method GetFile(section: string, name: string, defaultPath: string, path: string, folder: SectionFolder)
        returns (file: UpdatableFile)
      requires Valid()
      modifies this, provider, provider.files.Values`defaultPath
      ensures Valid()
      ensures s == Protocol.Lookup(old(s),
        Protocol.Key(section, name), name, Protocol.UrlOf(provider.base, section, name))
      ensures var key := Protocol.Key(section, name);
        if key in old(s).table then objects == old(objects) && file == objects[s.table[key]]
        else fresh(file) && objects == old(objects) + [file]
      ensures file.defaultPath == defaultPath
    {
      if Protocol.Key(section, name) in provider.files {
        file := GetKnownFile(section, name, defaultPath, path, folder);
      } else {
        file := GetNewFile(section, name, defaultPath, path, folder);
      }
    }

    method GetKnownFile(section: string, name: string, defaultPath: string, path: string, folder: SectionFolder)
        returns (file: UpdatableFile)
      requires Valid() && Protocol.Key(section, name) in provider.files
      modifies this`s, this`trace, this`evs, provider`files, provider.files.Values`defaultPath
      ensures Valid() && s == old(s)
      ensures file == objects[s.table[Protocol.Key(section, name)]] && file.defaultPath == defaultPath
    {
      file := provider.GetFile(section, name, defaultPath, path, folder);
      assert Protocol.Key(section, name) in s.table;
      Record(Protocol.GetFile(Protocol.Key(section, name), name, Protocol.UrlOf(provider.base, section, name)));
    }

    method GetNewFile(section: string, name: string, defaultPath: string, path: string, folder: SectionFolder)
        returns (file: UpdatableFile)
      requires Valid() && Protocol.Key(section, name) !in provider.files
      modifies this, provider`files, provider.files.Values`defaultPath
      ensures Valid() && fresh(file) && objects == old(objects) + [file] && file.defaultPath == defaultPath
      ensures s == Protocol.Lookup(old(s),
        Protocol.Key(section, name), name, Protocol.UrlOf(provider.base, section, name))
    {
      file := provider.GetFile(section, name, defaultPath, path, folder);
      Record(Protocol.GetFile(Protocol.Key(section, name), name, Protocol.UrlOf(provider.base, section, name)));
      OneMoreShows(objects, file, old(s), s);
      OneMoreRegistered(old(provider.files), objects, old(s).table, Protocol.Key(section, name), file);
      objects := objects + [file];
    }

    method Update(f: Protocol.Id, listing: seq<string>)
      requires Valid() && f < |objects|
      modifies this`s, this`trace, this`evs, objects[f], downloader
      ensures Valid() && s == Protocol.UpdateFile(old(s), f)
    {
      var _ := objects[f].Update(downloader, listing);
      Record(Protocol.Event.Update(f));
    }

    /** Some other object uses the downloader. */
    method Schedule(url: Url)
      requires Valid()
      modifies this`s, this`trace, this`evs, downloader
      ensures Valid() && s == Protocol.Next(old(s), Protocol.Foreign(url))
    {
      downloader.ScheduleDownload(url);
      Record(Protocol.Foreign(url));
    }

    /** A reply is finished: the signal and its URL. */
    method Finish(reply: Reply) returns (url: Url, signal: Signal)
      requires Valid() && downloader.currentReply && s.e.Quiet?
      modifies this`s, this`trace, this`evs
      ensures Valid() && s == Protocol.Next(old(s), Protocol.Finish(reply))
      ensures s.e.Emitting? && s.e.url == url && s.e.signal == signal == SignalOf(reply)
    {
      url, signal := downloader.FinishReply(reply);
      Record(Protocol.Finish(reply));
    }

    /** The signal reaches its next receiver, if that is still connected. */
    method Deliver(f: Protocol.Id, url: Url, signal: Signal, w: WriteResult)
      requires Valid() && s.e.Emitting? && s.e.receivers != [] && s.e.receivers[0] < |s.files|
      requires f == s.e.receivers[0] && url == s.e.url && signal == s.e.signal
      modifies this`s, this`trace, this`evs, objects[f], objects[f].folder
      ensures Valid() && s == Delivered(old(s))
      ensures var file := objects[f];
        file.folder.files ==
          if !old(file.connected) || file.updateUrl != url then old(file.folder.files)
          else Stored(old(file.folder.files), file.name, signal, w)
    {
      Protocol.WithoutIs(s.connections, f);
      CallIfConnected(objects[f], url, signal, w);
      RecordDelivery();
      assert Shows(objects[f], s.files[f], f in s.connections);
      assert forall i :: 0 <= i < |objects| && i != f ==> Shows(objects[i], s.files[i], i in s.connections);
    }

    /** A receiver that has disconnected since the signal was emitted is not called. */
    method CallIfConnected(file: UpdatableFile, url: Url, signal: Signal, w: WriteResult)
      requires file.Valid()
      modifies file`updateRunning, file`connected, file.folder
      ensures file.Valid() && file.updateRunning == (old(file.updateRunning) && url != file.updateUrl)
      ensures file.folder.files ==
        if !old(file.connected) || file.updateUrl != url then old(file.folder.files)
        else Stored(old(file.folder.files), file.name, signal, w)
    {
      if file.connected {
        CallSlot(file, url, signal, w);
      }
    }

    /** Which slot is connected to which signal. */
    method CallSlot(file: UpdatableFile, url: Url, signal: Signal, w: WriteResult)
      requires file.Valid()
      modifies file`updateRunning, file`connected, file.folder
      ensures file.Valid() && file.updateRunning == (old(file.updateRunning) && url != file.updateUrl)
      ensures file.folder.files ==
        if file.updateUrl != url then old(file.folder.files)
        else Stored(old(file.folder.files), file.name, signal, w)
    {
      match signal
      case Success(lastModified, data) => var _ := file.OnDownloadSuccess(url, lastModified, data, w);
      case Unnecessary => file.OnDownloadUnnecessary(url);
      case Failed(_) => file.OnDownloadFailed(url);
    }

    ghost method RecordDelivery()
      requires Linked() && Protocol.Enabled(s, Protocol.Deliver) && Between(s)
      modifies this`s, this`trace, this`evs
      ensures Linked() && s == Delivered(old(s))
      ensures evs == old(evs) + [Protocol.Deliver]
        + if old(Mine(s)) then [Protocol.Disconnect, Protocol.Clear] else []
    {
      DeliveredIsSteps(s);
      var mine := Mine(s);
      Record(Protocol.Deliver);
      if mine {
        Record(Protocol.Disconnect);
        Record(Protocol.Clear);
      }
    }

    /** The last receiver is done: the next request starts. */
    method Release()
      requires Valid() && s.e.Emitting? && s.e.receivers == []
      modifies this`s, this`trace, this`evs, downloader
      ensures Valid() && s == Protocol.Next(old(s), Protocol.Release) && s.e.Quiet?
    {
      downloader.ReleaseReply();
      Record(Protocol.Release);
    }

    /** Where a file stands while a signal for it is delivered. */
    ghost predicate Takes(mine: nat, before: Folder, url: Url, signal: Signal, w: WriteResult)
      reads this`objects, objects`connected, set o | o in objects :: o.folder
    {
      mine < |objects| && objects[mine].updateUrl == url &&
      objects[mine].folder.files
        == if objects[mine].connected then before else Stored(before, objects[mine].name, signal, w)
    }

    /** One delivery, seen from the file the signal is for. */
    method DeliverFor(f: Protocol.Id, url: Url, signal: Signal, w: WriteResult, ghost mine: nat, ghost before: Folder)
      requires Valid() && s.e.Emitting? && s.e.receivers != [] && s.e.receivers[0] < |s.files|
      requires f == s.e.receivers[0] && url == s.e.url && signal == s.e.signal && Takes(mine, before, url, signal, w)
      requires f != mine ==> objects[f].updateUrl != url
      modifies this`s, this`trace, this`evs, objects[f], objects[f].folder
      ensures Valid() && s == Delivered(old(s)) && Takes(mine, before, url, signal, w)
      ensures objects[mine].connected <==> old(objects[mine].connected) && f != mine
    {
      Deliver(f, url, signal, w);
      assert Shows(objects[mine], s.files[mine], mine in s.connections);
      Protocol.WithoutIs(old(s.connections), f);
    }

    ghost predicate Emits(url: Url, signal: Signal, receivers: seq<nat>)
      reads this`s
    {
      s.e.Emitting? && s.e.url == url && s.e.signal == signal && s.e.receivers == receivers
    }

    ghost predicate OnlyOne(mine: nat, url: Url)
      reads this`objects
    {
      forall i :: 0 <= i < |objects| && i != mine ==> objects[i].updateUrl != url
    }

    /** The signal reaches all receivers, in this order. */
    method DeliverAll(order: seq<nat>, url: Url, signal: Signal, w: WriteResult, ghost mine: nat, ghost before: Folder)
      requires Valid() && Emits(url, signal, order) && Protocol.InRange(order, |objects|)
      requires OnlyOne(mine, url) && Takes(mine, before, url, signal, w) && (objects[mine].connected ==> mine in order)
      modifies this`s, this`trace, this`evs, objects, set o | o in objects :: o.folder
      ensures Valid() && Emits(url, signal, []) && s.q == old(s.q)
      ensures Takes(mine, before, url, signal, w) && !objects[mine].connected
      decreases |order|
    {
      if order != [] {
        var f, rest := order[0], order[1..];
        RestInRange(order, |objects|, mine);
        DeliverFor(f, url, signal, w, mine, before);
        DeliverAll(rest, url, signal, w, mine, before);
      }
    }

    /** The whole of `onNetworkReplyFinished`, for a request of one of the files, with the receivers
        in the order of their connections: the folder of that file takes the effect of the reply,
        and the file is updating no more. */
    method Answer(reply: Reply, w: WriteResult, order: seq<nat>, ghost mine: nat)
      requires Valid() && downloader.currentReply && s.e.Quiet? && order == s.connections
      requires mine < |objects| && objects[mine].connected && OnlyOne(mine, objects[mine].updateUrl)
      requires downloader.currentRequest == Some(objects[mine].updateUrl)
      modifies this`s, this`trace, this`evs, downloader, objects, set o | o in objects :: o.folder
      ensures Valid() && s.e.Quiet? && !objects[mine].connected
      ensures objects[mine].folder.files
        == Stored(old(objects[mine].folder.files), objects[mine].name, SignalOf(reply), w)
    {
      var url, signal := Finish(reply);
      DeliverAll(order, url, signal, w, mine, objects[mine].folder.files);
      Release();
    }

    /** What the protocol guarantees, read off the objects: with URLs of their own, between two
        deliveries a file is updating exactly when the downloader has one request for it. */
    lemma UpdatingMeansRequested(i: nat)
      requires Valid() && Protocol.OwnRun(trace, evs) && s.e.Quiet? && i < |objects| && objects[i].name != ""
      ensures multiset(downloader.View().Outstanding())[objects[i].updateUrl]
        == if objects[i].updateRunning then 1 else 0
    {
      Protocol.QuiescentState(trace, evs, |evs|, s);
      assert s.files[i].Named();
    }
  }
}
